/** Addition with carry as the A64 architecture defines it, and the word identities behind the
    translator's flag computations. */
module A64Words {
  import opened Bits
  import opened Tcg

  datatype Flags = Flags(n: bool, z: bool, c: bool, v: bool)

  function Sum(x: Word, y: Word, carry: bool): (r: Word)
    requires |x| == |y|
    ensures |r| == |x|
  {
    FromNat(|x|, Val(x) + Val(y) + Bit(carry))
  }

  /** The flags of AddWithCarry: C says that the unsigned sum does not fit, V the signed one. */
  function SumFlags(x: Word, y: Word, carry: bool): Flags
    requires |x| == |y| > 0
  {
    var r := Sum(x, y, carry);
    Flags(r[|r| - 1],
          Val(r) == 0,
          Val(r) != Val(x) + Val(y) + Bit(carry),
          SInt(r) != SInt(x) + SInt(y) + Bit(carry))
  }

  lemma {:induction false} FromNatWraps(w: nat, n: nat)
    ensures FromNat(w, n + Pow2(w)) == FromNat(w, n)
  {
    if w > 0 {
      var p := Pow2(w - 1);
      assert (n + 2 * p) / 2 == n / 2 + p && (n + 2 * p) % 2 == n % 2;
      FromNatWraps(w - 1, n / 2);
    }
  }

  lemma BitBound(b: bool)
    ensures Bit(b) <= 1
  {
  }

  /** A sum of two words and a carry, with and without its highest bit. */
  lemma SumValue(x: Word, y: Word, carry: bool)
    requires |x| == |y|
    ensures var us, p := Val(x) + Val(y) + Bit(carry), Pow2(|x|);
            us < 2 * p && Val(Sum(x, y, carry)) == if us < p then us else us - p
  {
    hide FromNat, Val, Pow2, Bit;
    var us: nat, p := Val(x) + Val(y) + Bit(carry), Pow2(|x|);
    BitBound(carry);
    assert Sum(x, y, carry) == FromNat(|x|, us);
    if us < p {
      ValFromNat(|x|, us);
    } else {
      FromNatWraps(|x|, us - p);
      ValFromNat(|x|, us - p);
    }
  }

  /** Signed overflow shows in the signs alone. */
  lemma OverflowBySigns(x: Word, y: Word, carry: bool)
    requires |x| == |y| > 0
    ensures var r, t := Sum(x, y, carry), |x| - 1;
            SumFlags(x, y, carry).v <==> r[t] != x[t] && x[t] == y[t]
  {
    hide FromNat, Sum, Val;
    SumValue(x, y, carry);
    TopBit(x);
    TopBit(y);
    TopBit(Sum(x, y, carry));
    assert Pow2(|x|) == 2 * Pow2(|x| - 1);
  }

  lemma {:induction false} NotValue(y: Word)
    ensures Val(Not(y)) == Pow2(|y|) - 1 - Val(y)
  {
    if y != [] {
      NotValue(y[1..]);
      assert Not(y)[1..] == Not(y[1..]);
    }
  }

  /** Subtraction is addition of the complement with carry in. */
  lemma SubIsSum(x: Word, y: Word)
    requires |x| == |y|
    ensures BinVal(Sub, x, y) == Sum(x, Not(y), true)
    ensures Val(x) >= Val(y) <==> Val(Sum(x, Not(y), true)) != Val(x) + Val(Not(y)) + 1
  {
    hide FromNat, Val, Pow2;
    NotValue(y);
    SumValue(x, Not(y), true);
  }

  lemma {:induction false} ValOfZero(w: nat)
    ensures Val(Zero(w)) == 0
  {
    if w > 0 {
      assert Zero(w)[1..] == Zero(w - 1);
      ValOfZero(w - 1);
    }
  }

  /** The word 1 or 0. */
  lemma TruthValue(w: nat, b: bool)
    requires w > 0
    ensures Val(Truth(w, b)) == Bit(b) && FromNat(w, Bit(b)) == Truth(w, b)
  {
    assert Truth(w, b)[1..] == Zero(w - 1);
    ValOfZero(w - 1);
    FromNatVal(Truth(w, b));
  }

  /** The two result words of a double-width sum whose high words are zero, or hold a carry. */
  lemma Sum2Words(al: Word, ah: Word, bl: Word, bh: Word, ca: bool)
    requires |al| == |ah| == |bl| == |bh| > 0
    requires ah == Truth(|al|, ca) && bh == Zero(|al|)
    ensures FromNat(|al|, Sum2(al, ah, bl, bh)) == Sum(al, bl, false)
    ensures Upper(Sum2(al, ah, bl, bh), |al|) == Bit(Val(Sum(al, bl, false)) != Val(al) + Val(bl)) + Bit(ca)
  {
    hide FromNat, Sum, Val, Pow2, Upper, Truth, Zero, Sum2;
    Sum2Value(al, ah, bl, bh, ca);
    SumFromNat(al, bl);
    if ca { FromNatWraps(|al|, Val(al) + Val(bl)); }
    UpperOfSum(al, bl, ca);
  }

  lemma UpperOfSum(a: Word, b: Word, ca: bool)
    requires |a| == |b| > 0
    ensures Upper(Val(a) + Val(b) + (if ca then Pow2(|a|) else 0), |a|)
            == Bit(Val(Sum(a, b, false)) != Val(a) + Val(b)) + Bit(ca)
  {
    hide Sum, Val, Pow2, Quotient;
    SumValue(a, b, false);
    UpperPart(Val(a) + Val(b), Pow2(|a|), ca);
  }

  lemma Sum2Value(al: Word, ah: Word, bl: Word, bh: Word, ca: bool)
    requires |al| == |ah| == |bl| == |bh| > 0
    requires ah == Truth(|al|, ca) && bh == Zero(|al|)
    ensures Sum2(al, ah, bl, bh) == Val(al) + Val(bl) + (if ca then Pow2(|al|) else 0)
  {
    hide Val, Pow2, Truth, Zero, Times;
    ValOfZero(|al|);
    TruthValue(|al|, ca);
    Products(Pow2(|al|), Bit(ca));
  }

  /** The part of us, plus p with a carry, above p. */
  lemma UpperPart(us: nat, p: nat, ca: bool)
    requires 1 <= p && us < 2 * p
    ensures Quotient(us + (if ca then p else 0), p) == Bit(us >= p) + Bit(ca)
  {
    hide Quotient;
    QuotientOf(us + (if ca then p else 0), p, Bit(us >= p) + Bit(ca));
  }

  lemma Products(p: nat, k: nat)
    requires k <= 1
    ensures Times(p, k + 0) == if k == 1 then p else 0
  {
  }

  lemma SumFromNat(a: Word, b: Word)
    requires |a| == |b|
    ensures FromNat(|a|, Val(a) + Val(b)) == Sum(a, b, false)
  {
    hide FromNat;
  }

  lemma QuotientOf(total: nat, p: nat, high: nat)
    requires p >= 1 && high <= 2
    requires (if high == 0 then 0 else if high == 1 then p else 2 * p) <= total
    requires total < (if high == 0 then p else if high == 1 then 2 * p else 3 * p)
    ensures Quotient(total, p) == high
  {
  }

  /** Adding two words in double width gives the sum and its carry. */
  lemma PlainSum(x: Word, y: Word)
    requires |x| == |y| > 0
    ensures var z, w := Zero(|x|), |x|;
            && |z| == w && LowSum(x, z, y, z) == Sum(x, y, false)
            && HighSum(x, z, y, z) == Truth(w, SumFlags(x, y, false).c)
  {
    hide FromNat, Sum, Sum2, Upper, SInt, Val, Pow2;
    FalseIsZero(|x|);
    Sum2Words(x, Zero(|x|), y, Zero(|x|), false);
    TruthValue(|x|, SumFlags(x, y, false).c);
  }

  lemma FalseIsZero(w: nat)
    ensures Truth(w, false) == Zero(w) && |Zero(w)| == w
  {
  }

  /** Adding the carry first and the second word then gives the sum with carry in, and its carry. */
  lemma ChainedSum(x: Word, y: Word, carry: bool)
    requires |x| == |y| > 0
    ensures var z, c, w := Zero(|x|), Truth(|x|, carry), |x|;
            && |z| == w
            && LowSum(LowSum(x, z, c, z), HighSum(x, z, c, z), y, z) == Sum(x, y, carry)
            && HighSum(LowSum(x, z, c, z), HighSum(x, z, c, z), y, z) == Truth(w, SumFlags(x, y, carry).c)
  {
    hide FromNat, Sum, Sum2, Upper, SInt, Val, Pow2, Truth, Zero, LowSum, HighSum;
    var w, c := |x|, Truth(|x|, carry);
    FalseIsZero(w);
    PlainSum(x, c);
    var r1, c1 := Sum(x, c, false), SumFlags(x, c, false).c;
    TruthValue(w, carry);
    SumValue(x, c, false);
    SumValue(r1, y, false);
    SumValue(x, y, carry);
    ValInjective(Sum(r1, y, false), Sum(x, y, carry));
    Sum2Words(r1, Truth(w, c1), y, Zero(w), c1);
    TruthValue(w, SumFlags(x, y, carry).c);
    LowHigh(r1, Truth(w, c1), y, Zero(w));
  }

  lemma LowHigh(al: Word, ah: Word, bl: Word, bh: Word)
    ensures LowSum(al, ah, bl, bh) == FromNat(|al|, Sum2(al, ah, bl, bh))
    ensures HighSum(al, ah, bl, bh) == FromNat(|al|, Upper(Sum2(al, ah, bl, bh), |al|))
  {
  }

  /** The low bits of a sum are the sum of the low bits. */
  lemma {:induction false} FromNatPrefix(w: nat, m: nat, n: nat)
    requires m <= w
    ensures FromNat(w, n)[..m] == FromNat(m, n)
  {
    if m > 0 {
      FromNatPrefix(w - 1, m - 1, n / 2);
      assert FromNat(w, n)[..m] == [n % 2 == 1] + FromNat(w - 1, n / 2)[..m - 1];
    }
  }

  /** Reducing a number twice is reducing it once. */
  lemma {:induction false} FromNatOfVal(w: nat, m: nat, n: nat)
    ensures FromNat(w, Val(FromNat(w, n)) + m) == FromNat(w, n + m)
  {
    if w > 0 {
      var q := Val(FromNat(w - 1, n / 2));
      assert Val(FromNat(w, n)) == n % 2 + 2 * q by { assert FromNat(w, n)[1..] == FromNat(w - 1, n / 2); }
      var k := (n % 2 + m) / 2;
      FromNatOfVal(w - 1, k, n / 2);
      assert (n % 2 + 2 * q + m) / 2 == q + k && (n + m) / 2 == n / 2 + k;
      assert (n % 2 + 2 * q + m) % 2 == (n + m) % 2;
    }
  }

  /** Two 64-bit additions and, in the 32-bit form, a zero extension add with carry. */
  lemma AdcValue(x: Word, y: Word, carry: bool, sf: bool)
    requires |x| == |y| == 64
    ensures var r := BinVal(Add, BinVal(Add, x, y), Truth(64, carry));
            var w := if sf then 64 else 32;
            |Resize(x, w)| == |Resize(y, w)| == w
            && (if sf then r else UnVal(Ext32u, r)) == Resize(Sum(Resize(x, w), Resize(y, w), carry), 64)
  {
    hide FromNat, Val, Pow2;
    var total := Val(x) + Val(y) + Bit(carry);
    TruthValue(64, carry);
    FromNatOfVal(64, Bit(carry), Val(x) + Val(y));
    var r := BinVal(Add, BinVal(Add, x, y), Truth(64, carry));
    assert r == FromNat(64, total);
    if sf {
      assert Resize(x, 64) == x && Resize(y, 64) == y && Resize(r, 64) == r;
    } else {
      LowSum32(x, y, carry);
    }
  }

  lemma LowSum32(x: Word, y: Word, carry: bool)
    requires |x| == |y| == 64
    ensures Resize(FromNat(64, Val(x) + Val(y) + Bit(carry)), 32) == Sum(Resize(x, 32), Resize(y, 32), carry)
  {
    hide FromNat, Val, Pow2;
    var total := Val(x) + Val(y) + Bit(carry);
    FromNatPrefix(64, 32, total);
    assert Resize(FromNat(64, total), 32) == FromNat(64, total)[..32];
    LowValue(x);
    LowValue(y);
    FromNatOfVal(32, Val(y) + Bit(carry), Val(x));
    FromNatOfVal(32, Val(Resize(x, 32)) + Bit(carry), Val(y));
  }

  lemma LowValue(x: Word)
    requires |x| == 64
    ensures Resize(x, 32) == FromNat(32, Val(x)) && |Resize(x, 32)| == 32
  {
    hide FromNat, Val;
    FromNatVal(x);
    FromNatPrefix(64, 32, Val(x));
    assert Resize(x, 32) == x[..32];
  }

  // ----- The flag registers

  /** The condition flags as the flag registers hold them: N and V are sign bits, Z says that the
      register is zero, and C is a bit. */
  function FlagsOf(s: Store): Flags {
    Flags(Get(s, NF)[31], Val(Get(s, ZF)) == 0, Get(s, CF)[0], Get(s, VF)[31])
  }

  /** The carry register holds 0 or 1. */
  ghost predicate CarryIsBit(s: Store) {
    Get(s, CF) == Truth(32, Get(s, CF)[0])
  }

  lemma ZeroOfHalves(r: Word)
    requires |r| == 64
    ensures Val(Or(Resize(r, 32), Resize(Shr(r, 32), 32))) == 0 <==> Val(r) == 0
  {
    var o := Or(Resize(r, 32), Resize(Shr(r, 32), 32));
    ValZero(o);
    ValZero(r);
    if Val(o) == 0 {
      forall i | 0 <= i < 64 ensures !r[i] {
        assert !o[if i < 32 then i else i - 32];
      }
    }
  }

  /** The sign bit of the overflow word of a 64-bit sum. */
  lemma SumOverflow(x: Word, y: Word, carry: bool)
    requires |x| == |y| > 0
    ensures BinVal(Andc, BinVal(XorOp, Sum(x, y, carry), x), BinVal(XorOp, x, y))[|x| - 1] == SumFlags(x, y, carry).v
  {
    hide Sum, SumFlags;
    OverflowBySigns(x, y, carry);
  }

  lemma DifferenceOverflow(x: Word, y: Word)
    requires |x| == |y| > 0
    ensures BinVal(AndOp, BinVal(XorOp, Sum(x, Not(y), true), x), BinVal(XorOp, x, y))[|x| - 1]
            == SumFlags(x, Not(y), true).v
  {
    hide Sum, SumFlags;
    OverflowBySigns(x, Not(y), true);
  }

  lemma HighHalfTop(a: Word)
    requires |a| == 64
    ensures UnVal(Extrh, a)[31] == a[63]
  {
  }

  lemma LowHalfOfTruth(b: bool)
    ensures UnVal(Extrl, Truth(64, b)) == Truth(32, b) && UnVal(ExtU32, Truth(32, b)) == Truth(64, b)
  {
  }
}
