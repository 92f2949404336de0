/** Flag-setting arithmetic of the A64 translator. */
module A64Arith {
  import opened Bits
  import opened Tcg
  import opened A64Words

  predicate IsFlag(v: Var) {
    v == NF || v == ZF || v == CF || v == VF
  }

  /** v existed before temporary number n. */
  predicate Older(v: Var, n: nat) {
    (v.T32? || v.T64? ==> v.n < n)
  }

  /** An operand: a 64-bit variable that is not a fresh temporary. */
  predicate Operand(v: Var, n: nat) {
    Width(v) == 64 && Older(v, n)
  }

  /** Nothing but the flags, dest and temporaries from n on has changed. */
  ghost predicate OnlyFlagsAnd(s: Store, s': Store, dest: Var, n: nat) {
    forall v: Var {:trigger Get(s', v)} :: Older(v, n) && !IsFlag(v) && v != dest ==> Get(s', v) == Get(s, v)
  }

  /** The store holds the result and the flags of a sum. */
  ghost predicate Summed(s: Store, dest: Var, x: Word, y: Word, carry: bool)
    requires |x| == |y| && 0 < |x| <= 64
  {
    Get(s, dest) == Resize(Sum(x, y, carry), Width(dest)) && FlagsOf(s) == SumFlags(x, y, carry) && CarryIsBit(s)
  }

  function Bitsize(sf: bool): (n: nat)
    ensures n == 32 || n == 64
  {
    if sf then 64 else 32
  }

  /** The 32 or 64 bits of an operand that an instruction works on. */
  function Part(a: Word, sf: bool): (r: Word)
    ensures |r| == Bitsize(sf)
  {
    Resize(a, Bitsize(sf))
  }

  lemma WholePart(a: Word)
    requires |a| == 64
    ensures Part(a, true) == a && Resize(a, 64) == a
  {
  }

  /** The sign bit of n is bit 63 of the result, and z is zero exactly when the result is. */
  ghost predicate SignAndZero(n: Word, z: Word, r: Word)
    requires |n| == |z| == 32 && |r| == 64
  {
    n[31] == r[63] && (Val(z) == 0 <==> Val(r) == 0)
  }

  /** N and Z of a 64-bit result. */
  method GenSetNZ64(e: Emitter, result: Var)
    requires e.Valid() && Width(result) == 64
    modifies e`ops, e`cur
    ensures e.Valid()
    ensures SignAndZero(Get(e.cur, NF), Get(e.cur, ZF), Get(old(e.cur), result))
    ensures forall v: Var {:trigger Get(e.cur, v)} :: v != NF && v != ZF ==> Get(e.cur, v) == Get(old(e.cur), v)
  {
    hide UnVal, BinVal, Run, Emitter.Valid, Get, Val;
    ZeroOfParts(Get(e.cur, result));
    e.Un(Extrl, ZF, result);
    e.Un(Extrh, NF, result);
    e.Bin(OrOp, ZF, ZF, NF);
  }

  lemma ZeroOfParts(r: Word)
    requires |r| == 64
    ensures UnVal(Extrh, r)[31] == r[63]
    ensures Val(BinVal(OrOp, UnVal(Extrl, r), UnVal(Extrh, r))) == 0 <==> Val(r) == 0
  {
    hide Val;
    ZeroOfHalves(r);
    HighHalfTop(r);
  }

  /** The flag registers as the 64-bit sequences leave them. */
  ghost predicate Flagged64(s: Store, r: Word, carry: bool, overflow: Word)
    requires |r| == |overflow| == 64
  {
    && SignAndZero(Get(s, NF), Get(s, ZF), r)
    && Get(s, CF) == UnVal(Extrl, Truth(64, carry)) && Get(s, VF) == UnVal(Extrh, overflow)
  }

  lemma Flags64(s: Store, r: Word, carry: bool, overflow: Word)
    requires |r| == |overflow| == 64 && Flagged64(s, r, carry, overflow)
    ensures FlagsOf(s) == Flags(r[63], Val(r) == 0, carry, overflow[63]) && CarryIsBit(s)
  {
    hide Get, Val;
    HighHalfTop(overflow);
    LowHalfOfTruth(carry);
  }

  lemma SumFlagsAre(x: Word, y: Word, carry: bool, overflow: Word)
    requires |x| == |y| == |overflow| == 64 && overflow[63] == SumFlags(x, y, carry).v
    ensures var r := Sum(x, y, carry);
            SumFlags(x, y, carry) == Flags(r[63], Val(r) == 0, SumFlags(x, y, carry).c, overflow[63])
  {
    hide Sum, Val, SInt;
  }

  /** The overflow word: two differences of signs combined by k. */
  function Overflow(k: Binary, r: Word, x: Word, y: Word): (o: Word)
    requires |r| == |x| == |y|
    ensures |o| == |r|
  {
    BinVal(k, BinVal(XorOp, r, x), BinVal(XorOp, x, y))
  }

  /** The tail that the 64-bit sequences share: the overflow flag, and the result moved to dest. */
  method GenOverflow64(e: Emitter, k: Binary, dest: Var, result: Var, t0: Var, t1: Var, flag: Var, tmp: Var)
    requires e.Valid() && Width(dest) == Width(result) == Width(t0) == Width(t1) == Width(flag) == Width(tmp) == 64
    requires flag != tmp && result != flag && result != tmp && t0 != flag && t0 != tmp && t1 != flag && t1 != tmp
    modifies e`ops, e`cur
    ensures e.Valid()
    ensures Get(e.cur, VF) == UnVal(Extrh,
                Overflow(k, Get(old(e.cur), result), Get(old(e.cur), t0), Get(old(e.cur), t1)))
    ensures Get(e.cur, dest) == Get(old(e.cur), result)
    ensures forall v: Var {:trigger Get(e.cur, v)} ::
              v != flag && v != tmp && v != VF && v != dest ==> Get(e.cur, v) == Get(old(e.cur), v)
  {
    hide UnVal, BinVal, Run, Get;
    e.Bin(XorOp, flag, result, t0);
    e.Bin(XorOp, tmp, t0, t1);
    e.Bin(k, flag, flag, tmp);
    e.Un(Extrh, VF, flag);
    Moved(Get(e.cur, result));
    e.Un(Mov, dest, result);
  }

  /** Result and flag registers after one of the 64-bit sequences are those of a sum. */
  lemma SumOfSequence(s: Store, dest: Var, x: Word, y: Word, carry: bool, o: Word)
    requires |x| == |y| == |o| == 64 && Width(dest) == 64
    requires Get(s, dest) == Sum(x, y, carry) && Flagged64(s, Sum(x, y, carry), SumFlags(x, y, carry).c, o)
    requires o[63] == SumFlags(x, y, carry).v
    ensures Summed(s, dest, x, y, carry)
  {
    hide Get, Sum, SumFlags, FlagsOf, CarryIsBit, Flagged64;
    Flags64(s, Sum(x, y, carry), SumFlags(x, y, carry).c, o);
    SumFlagsAre(x, y, carry, o);
    Moved(Sum(x, y, carry));
  }

  /** The 64-bit sequences when only V and the move to dest are missing. */
  ghost predicate Halfway64(s: Store, result: Var, x: Word, y: Word, carry: bool)
    requires |x| == |y| == 64 && Width(result) == 64
  {
    && Get(s, result) == Sum(x, y, carry) && SignAndZero(Get(s, NF), Get(s, ZF), Sum(x, y, carry))
    && Get(s, CF) == UnVal(Extrl, Truth(64, SumFlags(x, y, carry).c))
  }

  predicate Apart(a: Var, b: Var, c: Var) {
    a != b && a != c && b != c
  }

  /** The rest of the 64-bit sequences; y is the second summand, t1 itself or its complement. */
  method GenTail64(e: Emitter, k: Binary, dest: Var, result: Var, t0: Var, t1: Var, flag: Var, tmp: Var, ghost y: Word,
          ghost carry: bool)
    requires e.Valid() && Width(dest) == Width(result) == Width(t0) == Width(t1) == Width(flag) == Width(tmp) == 64
    requires Apart(result, flag, tmp) && Apart(t0, flag, tmp) && Apart(t1, flag, tmp) && |y| == 64
    requires var x := Get(e.cur, t0);
             && Halfway64(e.cur, result, x, y, carry)
             && Overflow(k, Sum(x, y, carry), x, Get(e.cur, t1))[63] == SumFlags(x, y, carry).v
    modifies e`ops, e`cur
    ensures e.Valid() && Summed(e.cur, dest, Get(old(e.cur), t0), y, carry)
    ensures forall v: Var {:trigger Get(e.cur, v)} ::
              v != flag && v != tmp && !IsFlag(v) && v != dest ==> Get(e.cur, v) == Get(old(e.cur), v)
  {
    hide SignAndZero, UnVal, BinVal, Run, Emitter.Valid, Get, Sum, SumFlags, Truth, Overflow, Summed;
    ghost var x, z := Get(e.cur, t0), Get(e.cur, t1);
    GenOverflow64(e, k, dest, result, t0, t1, flag, tmp);
    SumOfSequence(e.cur, dest, x, y, carry, Overflow(k, Sum(x, y, carry), x, z));
  }

  /** The sum, N, Z and C. */
  method GenSum64(e: Emitter, result: Var, flag: Var, tmp: Var, t0: Var, t1: Var)
    requires e.Valid() && Width(result) == Width(flag) == Width(tmp) == Width(t0) == Width(t1) == 64
    requires Apart(result, flag, tmp) && Apart(t0, flag, tmp) && Apart(t1, flag, tmp)
    modifies e`ops, e`cur
    ensures e.Valid() && Halfway64(e.cur, result, Get(old(e.cur), t0), Get(old(e.cur), t1), false)
    ensures forall v: Var {:trigger Get(e.cur, v)} ::
              v != result && v != flag && v != tmp && !IsFlag(v) ==> Get(e.cur, v) == Get(old(e.cur), v)
  {
    hide SignAndZero, UnVal, Run, Emitter.Valid, Get, LowSum, HighSum, Sum, SumFlags, Zero, Truth;
    PlainSum(Get(e.cur, t0), Get(e.cur, t1));
    e.Movi(tmp, Zero(64));
    e.Add2(result, flag, t0, tmp, t1, tmp);
    e.Un(Extrl, CF, flag);
    GenSetNZ64(e, result);
  }

  method GenAddCC64(e: Emitter, dest: Var, t0: Var, t1: Var)
    requires e.Valid() && Operand(dest, e.temps) && Operand(t0, e.temps) && Operand(t1, e.temps)
    modifies e
    ensures e.Valid() && e.temps >= old(e.temps)
    ensures Summed(e.cur, dest, Get(old(e.cur), t0), Get(old(e.cur), t1), false)
    ensures OnlyFlagsAnd(old(e.cur), e.cur, dest, old(e.temps))
  {
    hide Run, Emitter.Valid, Get, Sum, SumFlags, Overflow, Summed, Halfway64;
    var result, flag, tmp := T64(e.temps), T64(e.temps + 1), T64(e.temps + 2);
    e.temps := e.temps + 3;
    ghost var x, y := Get(e.cur, t0), Get(e.cur, t1);
    GenSum64(e, result, flag, tmp, t0, t1);
    OverflowIs(x, y, false);
    GenTail64(e, Andc, dest, result, t0, t1, flag, tmp, y, false);
  }

  lemma OverflowIs(x: Word, y: Word, carry: bool)
    requires |x| == |y| > 0
    ensures Overflow(Andc, Sum(x, y, carry), x, y)[|x| - 1] == SumFlags(x, y, carry).v
    ensures Overflow(AndOp, Sum(x, Not(y), true), x, y)[|x| - 1] == SumFlags(x, Not(y), true).v
  {
    hide Sum, SumFlags, BinVal;
    SumOverflow(x, y, carry);
    DifferenceOverflow(x, y);
  }

  lemma Moved(a: Word)
    requires |a| == 64
    ensures UnVal(Mov, a) == Resize(a, 64) == a
  {
  }

  /** The difference, N, Z and C. */
  method GenDifference64(e: Emitter, result: Var, flag: Var, t0: Var, t1: Var)
    requires e.Valid() && Width(result) == Width(flag) == Width(t0) == Width(t1) == 64
    requires Apart(t0, result, flag) && Apart(t1, result, flag)
    modifies e`ops, e`cur
    ensures e.Valid() && |Not(Get(old(e.cur), t1))| == 64
    ensures Halfway64(e.cur, result, Get(old(e.cur), t0), Not(Get(old(e.cur), t1)), true)
    ensures forall v: Var {:trigger Get(e.cur, v)} ::
              v != result && v != flag && !IsFlag(v) ==> Get(e.cur, v) == Get(old(e.cur), v)
  {
    hide SignAndZero, UnVal, BinVal, Run, Emitter.Valid, Get, Sum, SumFlags, Truth, Not, Holds;
    NotWidth(Get(e.cur, t1));
    Difference(Get(e.cur, t0), Get(e.cur, t1));
    e.Bin(Sub, result, t0, t1);
    GenSetNZ64(e, result);
    e.Setcond(Geu, flag, t0, t1);
    e.Un(Extrl, CF, flag);
  }

  method GenSubCC64(e: Emitter, dest: Var, t0: Var, t1: Var)
    requires e.Valid() && Operand(dest, e.temps) && Operand(t0, e.temps) && Operand(t1, e.temps)
    modifies e
    ensures e.Valid() && e.temps >= old(e.temps)
    ensures Summed(e.cur, dest, Get(old(e.cur), t0), Not(Get(old(e.cur), t1)), true)
    ensures OnlyFlagsAnd(old(e.cur), e.cur, dest, old(e.temps))
  {
    hide Run, Emitter.Valid, Get, Sum, SumFlags, Overflow, Summed, Halfway64, Not;
    var result, flag, tmp := T64(e.temps), T64(e.temps + 1), T64(e.temps + 2);
    e.temps := e.temps + 3;
    ghost var x, y := Get(e.cur, t0), Get(e.cur, t1);
    NotWidth(y);
    GenDifference64(e, result, flag, t0, t1);
    OverflowIs(x, y, true);
    GenTail64(e, AndOp, dest, result, t0, t1, flag, tmp, Not(y), true);
  }

  /** Subtraction and the unsigned comparison are a sum with the complement, and its carry. */
  lemma Difference(x: Word, y: Word)
    requires |x| == |y| > 0
    ensures BinVal(Sub, x, y) == Sum(x, Not(y), true)
    ensures Holds(Geu, x, y) == SumFlags(x, Not(y), true).c
  {
    hide Val, Sum, SInt, BinVal, Not;
    SubIsSum(x, y);
    NotWidth(y);
  }

  lemma NotWidth(y: Word)
    ensures |Not(y)| == |y|
  {
  }

  /** The overflow flag and the zero-extended result of the 32-bit sequences. */
  method GenOverflow32(e: Emitter, k: Binary, dest: Var, t0: Var, t1: Var, tmp: Var)
    requires e.Valid() && Width(dest) == 64 && t0.T32? && t1.T32? && tmp.T32? && t0 != tmp && t1 != tmp
    modifies e`ops, e`cur
    ensures e.Valid()
    ensures Get(e.cur, VF) == Overflow(k, Get(old(e.cur), NF), Get(old(e.cur), t0), Get(old(e.cur), t1))
    ensures Get(e.cur, dest) == UnVal(ExtU32, Get(old(e.cur), NF))
    ensures forall v: Var {:trigger Get(e.cur, v)} ::
              v != tmp && v != VF && v != dest ==> Get(e.cur, v) == Get(old(e.cur), v)
  {
    hide UnVal, BinVal, Run, Get;
    e.Bin(XorOp, VF, NF, t0);
    e.Bin(XorOp, tmp, t0, t1);
    e.Bin(k, VF, VF, tmp);
    e.Un(ExtU32, dest, NF);
  }

  /** The flag registers as the 32-bit sequences leave them. */
  ghost predicate Flagged32(s: Store, r: Word, carry: bool, overflow: Word) {
    Get(s, NF) == r && Get(s, ZF) == r && Get(s, CF) == Truth(32, carry) && Get(s, VF) == overflow
  }

  lemma SumOfSequence32(s: Store, dest: Var, x: Word, y: Word, carry: bool, o: Word)
    requires |x| == |y| == |o| == 32 && Width(dest) == 64
    requires Get(s, dest) == UnVal(ExtU32, Sum(x, y, carry))
             && Flagged32(s, Sum(x, y, carry), SumFlags(x, y, carry).c, o)
    requires o[31] == SumFlags(x, y, carry).v
    ensures Summed(s, dest, x, y, carry)
  {
    hide Get, Sum, SInt, Val;
  }

  /** The rest of the 32-bit additions: Z, V and the result, N and C being there already. */
  method GenTail32(e: Emitter, dest: Var, t0: Var, t1: Var, tmp: Var, ghost carry: bool)
    requires e.Valid() && Width(dest) == 64 && t0.T32? && t1.T32? && tmp.T32? && t0 != tmp && t1 != tmp
    requires var x, y := Get(e.cur, t0), Get(e.cur, t1);
             Get(e.cur, NF) == Sum(x, y, carry) && Get(e.cur, CF) == Truth(32, SumFlags(x, y, carry).c)
    modifies e`ops, e`cur
    ensures e.Valid() && Summed(e.cur, dest, Get(old(e.cur), t0), Get(old(e.cur), t1), carry)
    ensures forall v: Var {:trigger Get(e.cur, v)} ::
              v != tmp && !IsFlag(v) && v != dest ==> Get(e.cur, v) == Get(old(e.cur), v)
  {
    hide UnVal, BinVal, Run, Emitter.Valid, Get, Sum, SumFlags, FlagsOf, CarryIsBit, Truth, Overflow, Summed, Val, Pow2;
    ghost var x, y := Get(e.cur, t0), Get(e.cur, t1);
    MovedFlag(Get(e.cur, NF));
    e.Un(Mov, ZF, NF);
    GenOverflow32(e, Andc, dest, t0, t1, tmp);
    OverflowIs(x, y, carry);
    SumOfSequence32(e.cur, dest, x, y, carry, Overflow(Andc, Sum(x, y, carry), x, y));
  }

  /** The low halves of both operands, in temporaries. */
  method GenHalves(e: Emitter, t0_32: Var, t1_32: Var, t0: Var, t1: Var)
    requires e.Valid() && Width(t0_32) == Width(t1_32) == 32 && Width(t0) == Width(t1) == 64 && t0_32 != t1_32
    modifies e`ops, e`cur
    ensures e.Valid() && Get(e.cur, t0_32) == Resize(Get(old(e.cur), t0), 32)
            && Get(e.cur, t1_32) == Resize(Get(old(e.cur), t1), 32)
    ensures forall v: Var {:trigger Get(e.cur, v)} :: v != t0_32 && v != t1_32 ==> Get(e.cur, v) == Get(old(e.cur), v)
  {
    hide UnVal, Run, Get, Resize;
    LowHalf(Get(e.cur, t0));
    LowHalf(Get(e.cur, t1));
    e.Un(Extrl, t0_32, t0);
    e.Un(Extrl, t1_32, t1);
  }

  method GenAddCC32(e: Emitter, dest: Var, t0: Var, t1: Var)
    requires e.Valid() && Operand(dest, e.temps) && Operand(t0, e.temps) && Operand(t1, e.temps)
    modifies e
    ensures e.Valid() && e.temps >= old(e.temps)
    ensures Summed(e.cur, dest, Resize(Get(old(e.cur), t0), 32), Resize(Get(old(e.cur), t1), 32), false)
    ensures OnlyFlagsAnd(old(e.cur), e.cur, dest, old(e.temps))
  {
    hide UnVal, BinVal, Run, Emitter.Valid, Get, LowSum, HighSum, Sum, SumFlags, FlagsOf, CarryIsBit, Zero, Truth,
         Overflow, Summed, Resize, Val, Pow2;
    var t0_32, t1_32, tmp := T32(e.temps), T32(e.temps + 1), T32(e.temps + 2);
    e.temps := e.temps + 3;
    ghost var x: Word, y: Word := Resize(Get(e.cur, t0), 32), Resize(Get(e.cur, t1), 32);
    LowHalf(Get(e.cur, t0));
    LowHalf(Get(e.cur, t1));
    PlainSum(x, y);
    e.Movi(tmp, Zero(32));
    GenHalves(e, t0_32, t1_32, t0, t1);
    e.Add2(NF, CF, t0_32, tmp, t1_32, tmp);
    GenTail32(e, dest, t0_32, t1_32, tmp, false);
  }

  lemma LowHalf(a: Word)
    ensures UnVal(Extrl, a) == Resize(a, 32) && |Resize(a, 32)| == 32
  {
  }

  lemma MovedFlag(a: Word)
    ensures UnVal(Mov, a) == a
  {
  }

  /** The difference in the N and Z registers, and its carry. */
  method GenDifference32(e: Emitter, t0: Var, t1: Var)
    requires e.Valid() && t0.T32? && t1.T32?
    modifies e`ops, e`cur
    ensures e.Valid()
    ensures var x, y := Get(old(e.cur), t0), Get(old(e.cur), t1);
            |Not(y)| == 32 && Get(e.cur, NF) == Get(e.cur, ZF) == Sum(x, Not(y), true)
            && Get(e.cur, CF) == Truth(32, SumFlags(x, Not(y), true).c)
    ensures forall v: Var {:trigger Get(e.cur, v)} :: !IsFlag(v) ==> Get(e.cur, v) == Get(old(e.cur), v)
  {
    hide UnVal, BinVal, Run, Emitter.Valid, Get, Sum, SumFlags, Truth, Not, Val, Holds, Pow2;
    Difference(Get(e.cur, t0), Get(e.cur, t1));
    NotWidth(Get(e.cur, t1));
    e.Bin(Sub, NF, t0, t1);
    MovedFlag(Get(e.cur, NF));
    e.Un(Mov, ZF, NF);
    e.Setcond(Geu, CF, t0, t1);
  }

  /** The whole of a 32-bit subtraction, its operands being there already. */
  method GenSub32(e: Emitter, dest: Var, t0: Var, t1: Var, tmp: Var)
    requires e.Valid() && Width(dest) == 64 && t0.T32? && t1.T32? && tmp.T32? && t0 != tmp && t1 != tmp
    modifies e`ops, e`cur
    ensures e.Valid() && |Not(Get(old(e.cur), t1))| == 32
    ensures Summed(e.cur, dest, Get(old(e.cur), t0), Not(Get(old(e.cur), t1)), true)
    ensures forall v: Var {:trigger Get(e.cur, v)} ::
              v != tmp && !IsFlag(v) && v != dest ==> Get(e.cur, v) == Get(old(e.cur), v)
  {
    hide UnVal, BinVal, Run, Emitter.Valid, Get, Sum, SumFlags, FlagsOf, CarryIsBit, Truth, Overflow, Summed, Not;
    ghost var x, y := Get(e.cur, t0), Get(e.cur, t1);
    NotWidth(y);
    GenDifference32(e, t0, t1);
    GenOverflow32(e, AndOp, dest, t0, t1, tmp);
    OverflowIs(x, y, true);
    SumOfSequence32(e.cur, dest, x, Not(y), true, Get(e.cur, VF));
  }

  method GenSubCC32(e: Emitter, dest: Var, t0: Var, t1: Var)
    requires e.Valid() && Operand(dest, e.temps) && Operand(t0, e.temps) && Operand(t1, e.temps)
    modifies e
    ensures e.Valid() && e.temps >= old(e.temps)
    ensures Summed(e.cur, dest, Resize(Get(old(e.cur), t0), 32), Not(Resize(Get(old(e.cur), t1), 32)), true)
    ensures OnlyFlagsAnd(old(e.cur), e.cur, dest, old(e.temps))
  {
    hide Run, Emitter.Valid, Get, Summed, Resize, Not;
    var t0_32, t1_32, tmp := T32(e.temps), T32(e.temps + 1), T32(e.temps + 2);
    e.temps := e.temps + 3;
    ghost var x: Word, y: Word := Resize(Get(e.cur, t0), 32), Resize(Get(e.cur, t1), 32);
    LowHalf(Get(e.cur, t0));
    LowHalf(Get(e.cur, t1));
    NotWidth(y);
    GenHalves(e, t0_32, t1_32, t0, t1);
    GenSub32(e, dest, t0_32, t1_32, tmp);
  }

  method GenAddCC(e: Emitter, sf: bool, dest: Var, t0: Var, t1: Var)
    requires e.Valid() && Operand(dest, e.temps) && Operand(t0, e.temps) && Operand(t1, e.temps)
    modifies e
    ensures e.Valid() && e.temps >= old(e.temps)
    ensures Summed(e.cur, dest, Part(Get(old(e.cur), t0), sf), Part(Get(old(e.cur), t1), sf), false)
    ensures OnlyFlagsAnd(old(e.cur), e.cur, dest, old(e.temps))
  {
    hide Summed, Run, Get, Resize;
    WholePart(Get(e.cur, t0));
    WholePart(Get(e.cur, t1));
    if sf {
      GenAddCC64(e, dest, t0, t1);
    } else {
      GenAddCC32(e, dest, t0, t1);
    }
  }

  method GenSubCC(e: Emitter, sf: bool, dest: Var, t0: Var, t1: Var)
    requires e.Valid() && Operand(dest, e.temps) && Operand(t0, e.temps) && Operand(t1, e.temps)
    modifies e
    ensures e.Valid() && e.temps >= old(e.temps)
    ensures Summed(e.cur, dest, Part(Get(old(e.cur), t0), sf), Not(Part(Get(old(e.cur), t1), sf)), true)
    ensures OnlyFlagsAnd(old(e.cur), e.cur, dest, old(e.temps))
  {
    hide Summed, Run, Get, Resize;
    WholePart(Get(e.cur, t0));
    WholePart(Get(e.cur, t1));
    if sf {
      GenSubCC64(e, dest, t0, t1);
    } else {
      GenSubCC32(e, dest, t0, t1);
    }
  }

  // ----- With carry

  /** The sum with carry alone; the flags stay. */
  method GenAdc(e: Emitter, sf: bool, dest: Var, t0: Var, t1: Var)
    requires e.Valid() && Operand(dest, e.temps) && Operand(t0, e.temps) && Operand(t1, e.temps) && CarryIsBit(e.cur)
    modifies e
    ensures e.Valid() && e.temps >= old(e.temps)
    ensures var x, y, c := Part(Get(old(e.cur), t0), sf), Part(Get(old(e.cur), t1), sf), FlagsOf(old(e.cur)).c;
            Get(e.cur, dest) == Resize(Sum(x, y, c), 64)
    ensures forall v: Var {:trigger Get(e.cur, v)} ::
              Older(v, old(e.temps)) && v != dest ==> Get(e.cur, v) == Get(old(e.cur), v)
  {
    hide UnVal, BinVal, Run, Emitter.Valid, Get, Sum, Truth, Resize;
    var flag := T64(e.temps);
    e.temps := e.temps + 1;
    ghost var x, y, c := Get(e.cur, t0), Get(e.cur, t1), FlagsOf(e.cur).c;
    e.Un(ExtU32, flag, CF);
    e.Bin(Add, dest, t0, t1);
    e.Bin(Add, dest, dest, flag);
    LowHalfOfTruth(c);
    AdcValue(x, y, c, sf);
    if !sf {
      e.Un(Ext32u, dest, dest);
    }
  }

  lemma CarryWord(s: Store)
    requires CarryIsBit(s)
    ensures Get(s, CF) == Truth(32, FlagsOf(s).c)
  {
  }

  lemma CarryKept(s: Store, s': Store)
    requires CarryIsBit(s) && forall v: Var :: IsFlag(v) ==> Get(s', v) == Get(s, v)
    ensures CarryIsBit(s') && FlagsOf(s') == FlagsOf(s)
  {
    hide Get;
  }

  /** The double-width additions of the 64-bit form, and their N, Z and C. */
  method GenChain64(e: Emitter, result: Var, cf_64: Var, tmp: Var, t0: Var, t1: Var)
    requires e.Valid() && CarryIsBit(e.cur)
    requires Width(result) == Width(cf_64) == Width(tmp) == Width(t0) == Width(t1) == 64
    requires Apart(result, cf_64, tmp) && Apart(t0, cf_64, tmp) && Apart(t1, cf_64, tmp) && t0 != result && t1 != result
    modifies e`ops, e`cur
    ensures e.Valid()
    ensures Halfway64(e.cur, result, Get(old(e.cur), t0), Get(old(e.cur), t1), FlagsOf(old(e.cur)).c)
    ensures forall v: Var {:trigger Get(e.cur, v)} ::
              v != result && v != cf_64 && v != tmp && !IsFlag(v) ==> Get(e.cur, v) == Get(old(e.cur), v)
  {
    hide SignAndZero, UnVal, Run, Emitter.Valid, Get, LowSum, HighSum, Sum, SumFlags, Zero, Truth, FlagsOf, CarryIsBit;
    ghost var x, y, c := Get(e.cur, t0), Get(e.cur, t1), FlagsOf(e.cur).c;
    CarryWord(e.cur);
    LowHalfOfTruth(c);
    ChainedSum(x, y, c);
    e.Movi(tmp, Zero(64));
    e.Un(ExtU32, cf_64, CF);
    e.Add2(result, cf_64, t0, tmp, cf_64, tmp);
    e.Add2(result, cf_64, result, cf_64, t1, tmp);
    e.Un(Extrl, CF, cf_64);
    GenSetNZ64(e, result);
  }

  method GenAdcCC64(e: Emitter, dest: Var, t0: Var, t1: Var)
    requires e.Valid() && Operand(dest, e.temps) && Operand(t0, e.temps) && Operand(t1, e.temps) && CarryIsBit(e.cur)
    modifies e
    ensures e.Valid() && e.temps >= old(e.temps)
    ensures Summed(e.cur, dest, Get(old(e.cur), t0), Get(old(e.cur), t1), FlagsOf(old(e.cur)).c)
    ensures OnlyFlagsAnd(old(e.cur), e.cur, dest, old(e.temps))
  {
    hide Run, Emitter.Valid, Get, Sum, SumFlags, Overflow, Summed, Halfway64, FlagsOf, CarryIsBit;
    var result, cf_64, vf_64, tmp := T64(e.temps), T64(e.temps + 1), T64(e.temps + 2), T64(e.temps + 3);
    e.temps := e.temps + 4;
    ghost var x, y, c := Get(e.cur, t0), Get(e.cur, t1), FlagsOf(e.cur).c;
    GenChain64(e, result, cf_64, tmp, t0, t1);
    OverflowIs(x, y, c);
    GenTail64(e, Andc, dest, result, t0, t1, vf_64, tmp, y, c);
  }

  /** The double-width additions of the 32-bit form, in the flag registers themselves. */
  method GenChain32(e: Emitter, tmp: Var, t0: Var, t1: Var)
    requires e.Valid() && CarryIsBit(e.cur) && t0.T32? && t1.T32? && tmp.T32? && t0 != tmp && t1 != tmp
             && Get(e.cur, tmp) == Zero(32)
    modifies e`ops, e`cur
    ensures e.Valid()
    ensures var x, y, c := Get(old(e.cur), t0), Get(old(e.cur), t1), FlagsOf(old(e.cur)).c;
            Get(e.cur, NF) == Sum(x, y, c) && Get(e.cur, CF) == Truth(32, SumFlags(x, y, c).c)
    ensures forall v: Var {:trigger Get(e.cur, v)} :: v != NF && v != CF ==> Get(e.cur, v) == Get(old(e.cur), v)
  {
    hide Run, Get, LowSum, HighSum, Sum, SumFlags, Zero, Truth, Val, Pow2, FlagsOf, CarryIsBit;
    CarryWord(e.cur);
    ChainedSum(Get(e.cur, t0), Get(e.cur, t1), FlagsOf(e.cur).c);
    e.Add2(NF, CF, t0, tmp, CF, tmp);
    e.Add2(NF, CF, NF, CF, t1, tmp);
  }

  method GenAdcCC32(e: Emitter, dest: Var, t0: Var, t1: Var)
    requires e.Valid() && Operand(dest, e.temps) && Operand(t0, e.temps) && Operand(t1, e.temps) && CarryIsBit(e.cur)
    modifies e
    ensures e.Valid() && e.temps >= old(e.temps)
    ensures Summed(e.cur, dest, Resize(Get(old(e.cur), t0), 32), Resize(Get(old(e.cur), t1), 32), FlagsOf(old(e.cur)).c)
    ensures OnlyFlagsAnd(old(e.cur), e.cur, dest, old(e.temps))
  {
    hide UnVal, BinVal, Run, Emitter.Valid, Get, LowSum, HighSum, Sum, SumFlags, Zero, Truth, Overflow, Summed, Resize,
         Val, Pow2, FlagsOf, CarryIsBit;
    var t0_32, t1_32, tmp := T32(e.temps), T32(e.temps + 1), T32(e.temps + 2);
    ghost var s0 := e.cur;
    FalseIsZero(32);
    e.temps := e.temps + 3;
    ghost var x, y, c := Resize(Get(e.cur, t0), 32), Resize(Get(e.cur, t1), 32), FlagsOf(e.cur).c;
    LowHalf(Get(e.cur, t0));
    LowHalf(Get(e.cur, t1));
    e.Movi(tmp, Zero(32));
    CarryKept(s0, e.cur);
    GenHalves(e, t0_32, t1_32, t0, t1);
    CarryKept(s0, e.cur);
    GenChain32(e, tmp, t0_32, t1_32);
    GenTail32(e, dest, t0_32, t1_32, tmp, c);
  }

  method GenAdcCC(e: Emitter, sf: bool, dest: Var, t0: Var, t1: Var)
    requires e.Valid() && Operand(dest, e.temps) && Operand(t0, e.temps) && Operand(t1, e.temps) && CarryIsBit(e.cur)
    modifies e
    ensures e.Valid() && e.temps >= old(e.temps)
    ensures Summed(e.cur, dest, Part(Get(old(e.cur), t0), sf), Part(Get(old(e.cur), t1), sf), FlagsOf(old(e.cur)).c)
    ensures OnlyFlagsAnd(old(e.cur), e.cur, dest, old(e.temps))
  {
    hide Summed, Run, Get, Resize, FlagsOf, CarryIsBit;
    WholePart(Get(e.cur, t0));
    WholePart(Get(e.cur, t1));
    if sf {
      GenAdcCC64(e, dest, t0, t1);
    } else {
      GenAdcCC32(e, dest, t0, t1);
    }
  }

  // ----- Guest registers

  /** Register number r as an instruction reads it: number 31 reads as zero. */
  function Reg(s: Store, r: nat): (w: Word)
    ensures |w| == 64
  {
    if r == 31 then Zero(64) else Get(s, X(r))
  }

  /** cpu_reg: the variable of a register, or a fresh zero for register 31. */
  method CpuReg(e: Emitter, r: nat) returns (v: Var)
    requires e.Valid()
    modifies e
    ensures e.Valid() && e.temps >= old(e.temps) && Operand(v, e.temps) && Get(e.cur, v) == Reg(old(e.cur), r)
    ensures r == 31 ==> !Older(v, old(e.temps))
    ensures r != 31 ==> v == X(r)
    ensures forall u: Var {:trigger Get(e.cur, u)} :: Older(u, old(e.temps)) ==> Get(e.cur, u) == Get(old(e.cur), u)
  {
    hide Get, Run;
    if r == 31 {
      v := T64(e.temps);
      e.temps := e.temps + 1;
      e.Movi(v, Zero(64));
    } else {
      v := X(r);
    }
  }

  /** read_cpu_reg: a copy of a register in a fresh temporary. */
  method ReadCpuReg(e: Emitter, r: nat, sf: bool) returns (v: Var)
    requires e.Valid()
    modifies e
    ensures e.Valid() && e.temps == old(e.temps) + 1 && v == T64(old(e.temps))
    ensures Get(e.cur, v) == Resize(Part(Reg(old(e.cur), r), sf), 64)
    ensures forall u: Var {:trigger Get(e.cur, u)} :: u != v ==> Get(e.cur, u) == Get(old(e.cur), u)
  {
    hide Get, Run;
    v := T64(e.temps);
    e.temps := e.temps + 1;
    if r != 31 {
      if sf {
        e.Un(Mov, v, X(r));
      } else {
        e.Un(Ext32u, v, X(r));
      }
    } else {
      e.Movi(v, Zero(64));
    }
  }

  /** All guest registers but rd are unchanged; so is number 31, wherever rd points. */
  ghost predicate OtherRegisters(s: Store, s': Store, rd: nat) {
    forall i: nat {:trigger Get(s', X(i))} :: i != rd || rd == 31 ==> Get(s', X(i)) == Get(s, X(i))
  }

  /** A field of an instruction word. */
  function Field(insn: Word, pos: nat, len: nat): (n: nat)
    requires pos + len <= |insn|
    ensures n < Pow2(len)
  {
    Val(insn[pos..pos + len])
  }

  /** What ADC, ADCS, SBC and SBCS do (section C3.5.3 of ARM DDI 0487A.a): the second operand is
      complemented by the SBC forms, and only the forms with S set the flags. */
  ghost predicate AddedWithCarry(s: Store, s': Store, sf: bool, op: bool, setflags: bool, rm: nat, rn: nat, rd: nat) {
    var x, y, c := Part(Reg(s, rn), sf), Part(Reg(s, rm), sf), FlagsOf(s).c;
    var y' := if op then Not(y) else y;
    && (rd != 31 ==> Get(s', X(rd)) == Resize(Sum(x, y', c), 64))
    && OtherRegisters(s, s', rd)
    && CarryIsBit(s') && FlagsOf(s') == if setflags then SumFlags(x, y', c) else FlagsOf(s)
  }

  /** The second operand, complemented in a fresh temporary for the SBC forms. */
  method SecondOperand(e: Emitter, op: bool, rm: nat) returns (v: Var)
    requires e.Valid()
    modifies e
    ensures e.Valid() && e.temps >= old(e.temps) && Operand(v, e.temps)
    ensures Get(e.cur, v) == if op then Not(Reg(old(e.cur), rm)) else Reg(old(e.cur), rm)
    ensures forall u: Var {:trigger Get(e.cur, u)} :: Older(u, old(e.temps)) ==> Get(e.cur, u) == Get(old(e.cur), u)
  {
    hide Get, Run, Emitter.Valid, Not, UnVal;
    v := CpuReg(e, rm);
    PartOfNot(Get(e.cur, v), true);
    if op {
      var y := T64(e.temps);
      e.temps := e.temps + 1;
      e.Un(NotOp, y, v);
      v := y;
    }
  }

  method AddWithCarryTo(e: Emitter, sf: bool, setflags: bool, dest: Var, t0: Var, t1: Var)
    requires e.Valid() && Operand(dest, e.temps) && Operand(t0, e.temps) && Operand(t1, e.temps) && CarryIsBit(e.cur)
    modifies e
    ensures e.Valid() && CarryIsBit(e.cur)
    ensures var x, y, c := Part(Get(old(e.cur), t0), sf), Part(Get(old(e.cur), t1), sf), FlagsOf(old(e.cur)).c;
            && Get(e.cur, dest) == Resize(Sum(x, y, c), 64)
            && FlagsOf(e.cur) == if setflags then SumFlags(x, y, c) else FlagsOf(old(e.cur))
    ensures OnlyFlagsAnd(old(e.cur), e.cur, dest, old(e.temps))
  {
    hide Get, Run, Emitter.Valid, Sum, SumFlags, Resize, FlagsOf, CarryIsBit, Part;
    ghost var s0 := e.cur;
    if setflags {
      GenAdcCC(e, sf, dest, t0, t1);
    } else {
      GenAdc(e, sf, dest, t0, t1);
      CarryKept(s0, e.cur);
    }
  }

  /** The emitting part of disas_adc_sbc. */
  method AdcSbc(e: Emitter, sf: bool, op: bool, setflags: bool, rm: nat, rn: nat, rd: nat)
    requires e.Valid() && CarryIsBit(e.cur)
    modifies e
    ensures e.Valid() && AddedWithCarry(old(e.cur), e.cur, sf, op, setflags, rm, rn, rd)
  {
    hide Get, Run, Emitter.Valid, Sum, SumFlags, Not, Resize, FlagsOf, CarryIsBit, Part, Reg, OtherRegisters;
    ghost var s0, n0 := e.cur, e.temps;
    var dest := CpuReg(e, rd);
    ghost var s1 := e.cur;
    SameRegister(s0, s1, n0, rn);
    var left := CpuReg(e, rn);
    ghost var s2 := e.cur;
    SameRegister(s0, s2, n0, rm);
    var right := SecondOperand(e, op, rm);
    PartOfNot(Reg(s0, rm), sf);
    CarryKept(s0, e.cur);
    AddWithCarryTo(e, sf, setflags, dest, left, right);
    OthersKept(s0, e.cur, n0, dest, rd);
  }

  lemma SameRegister(s: Store, s': Store, n: nat, r: nat)
    requires forall u: Var {:trigger Get(s', u)} :: Older(u, n) ==> Get(s', u) == Get(s, u)
    ensures Reg(s', r) == Reg(s, r)
  {
    hide Get;
  }

  lemma OthersKept(s: Store, s': Store, n: nat, dest: Var, rd: nat)
    requires OnlyFlagsAnd(s, s', dest, n) && if rd == 31 then !Older(dest, n) else dest == X(rd)
    ensures OtherRegisters(s, s', rd)
  {
    hide Get;
  }

  /** accepted is false for an unallocated encoding, for which nothing is emitted. */
  method DisasAdcSbc(e: Emitter, insn: Word) returns (accepted: bool)
    requires |insn| == 32 && e.Valid() && CarryIsBit(e.cur)
    modifies e
    ensures e.Valid() && (accepted <==> Field(insn, 10, 6) == 0)
    ensures !accepted ==> e.ops == old(e.ops)
    ensures accepted ==>
              AddedWithCarry(old(e.cur), e.cur, insn[31], insn[30], insn[29], Field(insn, 16, 5), Field(insn, 5, 5),
                  Field(insn, 0, 5))
  {
    hide AddedWithCarry, CarryIsBit;
    if Field(insn, 10, 6) != 0 {
      return false;
    }
    AdcSbc(e, insn[31], insn[30], insn[29], Field(insn, 16, 5), Field(insn, 5, 5), Field(insn, 0, 5));
    accepted := true;
  }

  lemma PartOfNot(a: Word, sf: bool)
    requires |a| == 64
    ensures Part(Not(a), sf) == Not(Part(a, sf)) && UnVal(NotOp, a) == Not(a)
  {
  }

  // ----- The flags as one word

  /** Bits 31 to 28: N, Z, C, V. */
  function FlagWord(f: Flags): Word {
    seq(64, i => (i == 31 && f.n) || (i == 30 && f.z) || (i == 29 && f.c) || (i == 28 && f.v))
  }

  lemma FlagWordBits(f: Flags)
    ensures var r := FlagWord(f);
            && |r| == 64 && r[31] == f.n && r[30] == f.z && r[29] == f.c && r[28] == f.v
            && forall i :: 0 <= i < 64 && (i < 28 || i > 31) ==> !r[i]
  {
  }

  /** The four flags in bits 31 to 28 of a register. */
  function FlagsIn(a: Word): Flags
    requires |a| == 64
  {
    Flags(a[31], a[30], a[29], a[28])
  }

  /** Only bit k. */
  function Only(w: nat, k: nat): (r: Word)
    ensures |r| == w
  {
    OneBit(w, k)
  }

  method GenGetNzcv(e: Emitter, rt: Var)
    requires e.Valid() && Operand(rt, e.temps) && CarryIsBit(e.cur)
    modifies e
    ensures e.Valid() && e.temps >= old(e.temps)
    ensures Get(e.cur, rt) == FlagWord(FlagsOf(old(e.cur)))
    ensures var r, f := Get(e.cur, rt), FlagsOf(old(e.cur));
            r[31] == f.n && r[30] == f.z && r[29] == f.c && r[28] == f.v
    ensures forall i :: 0 <= i < 64 && (i < 28 || i > 31) ==> !Get(e.cur, rt)[i]
    ensures forall v: Var {:trigger Get(e.cur, v)} ::
              Older(v, old(e.temps)) && v != rt ==> Get(e.cur, v) == Get(old(e.cur), v)
  {
    hide Run, Emitter.Valid, Get, FlagsOf, CarryIsBit, FlagWord, GatheredIn;
    ghost var s0 := e.cur;
    var tmp, nzcv := T32(e.temps), T32(e.temps + 1);
    e.temps := e.temps + 2;
    GenGather(e, rt, tmp, nzcv);
    GatheredFlags(s0);
    FlagWordBits(FlagsOf(s0));
  }

  /** The operations themselves: one deposit for each flag but N. */
  method GenGather(e: Emitter, rt: Var, tmp: Var, nzcv: Var)
    requires e.Valid() && Width(rt) == 64 && tmp.T32? && nzcv.T32? && tmp != nzcv
    modifies e`ops, e`cur
    ensures e.Valid()
    ensures |Only(32, 31)| == |Zero(32)| == 32
    ensures Get(e.cur, rt) == GatheredIn(old(e.cur))
    ensures forall v: Var {:trigger Get(e.cur, v)} ::
              v != rt && v != tmp && v != nzcv ==> Get(e.cur, v) == Get(old(e.cur), v)
  {
    hide UnVal, BinVal, Run, Emitter.Valid, Get, Truth, Only, DepositVal, ShiftVal, Zero, Holds;
    e.BinImm(AndOp, nzcv, NF, Only(32, 31));
    FalseIsZero(32);
    e.SetcondImm(Eq, tmp, ZF, Zero(32));
    e.Deposit(nzcv, nzcv, tmp, 30, 1);
    e.Deposit(nzcv, nzcv, CF, 29, 1);
    e.ShiftImm(ShrOp, tmp, VF, 31);
    e.Deposit(nzcv, nzcv, tmp, 28, 1);
    e.Un(ExtU32, rt, nzcv);
  }

  /** The word that the deposits build. */
  function Gathered(n: Word, z: Word, c: Word, v: Word): (r: Word)
    requires |n| == |z| == |c| == |v| == 32
    ensures |r| == 64
  {
    UnVal(ExtU32, DepositVal(DepositVal(DepositVal(n, z, 30, 1), c, 29, 1), v, 28, 1))
  }

  lemma GatheredBits(n: Word, z: Word, c: Word, v: Word)
    requires |n| == |z| == |c| == |v| == 32 && forall i :: 0 <= i < 31 ==> !n[i]
    ensures Gathered(n, z, c, v) == FlagWord(Flags(n[31], z[0], c[0], v[0]))
  {
  }

  function GatheredIn(s: Store): Word {
    GatheredZV(BinVal(AndOp, Get(s, NF), Only(32, 31)), Get(s, ZF), Get(s, CF), Get(s, VF))
  }

  function GatheredZV(n: Word, z: Word, c: Word, v: Word): Word
    requires |n| == |z| == |c| == |v| == 32
  {
    Gathered(n, Truth(32, Holds(Eq, z, Zero(32))), c, ShiftVal(ShrOp, v, 31))
  }

  lemma GatheredFlags(s: Store)
    requires CarryIsBit(s)
    ensures GatheredIn(s) == FlagWord(FlagsOf(s))
  {
    hide Get, Val, Truth, Holds, BinVal, ShiftVal, Zero, Gathered, FlagWord;
    GatheredNZV(Get(s, NF), Get(s, ZF), Get(s, VF));
    GatheredBits(BinVal(AndOp, Get(s, NF), Only(32, 31)), Truth(32, Holds(Eq, Get(s, ZF), Zero(32))), Get(s, CF),
            ShiftVal(ShrOp, Get(s, VF), 31));
  }

  lemma GatheredNZV(n: Word, z: Word, v: Word)
    requires |n| == |z| == |v| == 32
    ensures forall i :: 0 <= i < 32 ==> BinVal(AndOp, n, Only(32, 31))[i] == (i == 31 && n[31])
    ensures Truth(32, Holds(Eq, z, Zero(32)))[0] == (Val(z) == 0)
    ensures ShiftVal(ShrOp, v, 31)[0] == v[31]
  {
    hide Val;
    ValOfZero(32);
  }

  /** Bits 31 and 30 of nzcv into the N and Z registers. */
  method GenSetNZ(e: Emitter, nzcv: Var)
    requires e.Valid() && nzcv.T32?
    modifies e`ops, e`cur
    ensures e.Valid() && Get(e.cur, NF)[31] == Get(old(e.cur), nzcv)[31]
            && (Val(Get(e.cur, ZF)) == 0 <==> Get(old(e.cur), nzcv)[30])
    ensures forall v: Var {:trigger Get(e.cur, v)} :: v != NF && v != ZF ==> Get(e.cur, v) == Get(old(e.cur), v)
  {
    hide BinVal, Run, Emitter.Valid, Get, Truth, Only, Zero, Val, Holds;
    ghost var a := Get(e.cur, nzcv);
    FalseIsZero(32);
    e.BinImm(AndOp, NF, nzcv, Only(32, 31));
    e.BinImm(AndOp, ZF, nzcv, Only(32, 30));
    e.SetcondImm(Eq, ZF, ZF, Zero(32));
    ScatteredNZ(a);
  }

  lemma ScatteredNZ(a: Word)
    requires |a| == 32
    ensures BinVal(AndOp, a, Only(32, 31))[31] == a[31]
    ensures Val(Truth(32, Holds(Eq, BinVal(AndOp, a, Only(32, 30)), Zero(32)))) == 0 <==> a[30]
  {
    hide Val;
    var z := BinVal(AndOp, a, Only(32, 30));
    ValOfZero(32);
    ValZero(z);
    assert z[30] == a[30];
    TruthValue(32, Holds(Eq, z, Zero(32)));
  }

  /** Bits 29 and 28 into the C and V registers. */
  method GenSetCV(e: Emitter, nzcv: Var)
    requires e.Valid() && nzcv.T32?
    modifies e`ops, e`cur
    ensures e.Valid() && Get(e.cur, CF) == Truth(32, Get(old(e.cur), nzcv)[29])
            && Get(e.cur, VF)[31] == Get(old(e.cur), nzcv)[28]
    ensures forall v: Var {:trigger Get(e.cur, v)} :: v != CF && v != VF ==> Get(e.cur, v) == Get(old(e.cur), v)
  {
    hide BinVal, Run, Emitter.Valid, Get, Truth, Only, ShiftVal;
    ghost var a := Get(e.cur, nzcv);
    e.BinImm(AndOp, CF, nzcv, Only(32, 29));
    e.ShiftImm(ShrOp, CF, CF, 29);
    e.BinImm(AndOp, VF, nzcv, Only(32, 28));
    e.ShiftImm(ShlOp, VF, VF, 3);
    ScatteredCV(a);
  }

  lemma ScatteredCV(a: Word)
    requires |a| == 32
    ensures ShiftVal(ShrOp, BinVal(AndOp, a, Only(32, 29)), 29) == Truth(32, a[29])
    ensures ShiftVal(ShlOp, BinVal(AndOp, a, Only(32, 28)), 3)[31] == a[28]
  {
  }

  method GenSetNzcv(e: Emitter, rt: Var)
    requires e.Valid() && Operand(rt, e.temps)
    modifies e
    ensures e.Valid() && e.temps >= old(e.temps)
    ensures FlagsOf(e.cur) == FlagsIn(Get(old(e.cur), rt)) && CarryIsBit(e.cur)
    ensures var r, f := Get(old(e.cur), rt), FlagsOf(e.cur);
            f.n == r[31] && f.z == r[30] && f.c == r[29] && f.v == r[28]
    ensures forall v: Var {:trigger Get(e.cur, v)} ::
              Older(v, old(e.temps)) && !IsFlag(v) ==> Get(e.cur, v) == Get(old(e.cur), v)
  {
    hide Run, Emitter.Valid, Get, Val;
    var nzcv := T32(e.temps);
    e.temps := e.temps + 1;
    e.Un(Extrl, nzcv, rt);
    GenSetNZ(e, nzcv);
    GenSetCV(e, nzcv);
  }

  /** Reading the flags back after setting them gives the four bits that were set, and nothing else. */
  method SetThenGet(e: Emitter, rt: Var, rt': Var)
    requires e.Valid() && Operand(rt, e.temps) && Operand(rt', e.temps)
    modifies e
    ensures e.Valid() && Get(e.cur, rt') == FlagWord(FlagsIn(Get(old(e.cur), rt)))
    ensures forall i :: 0 <= i < 64 ==> Get(e.cur, rt')[i] == (28 <= i < 32 && Get(old(e.cur), rt)[i])
  {
    hide Get, Run, Emitter.Valid, FlagsOf, CarryIsBit;
    GenSetNzcv(e, rt);
    GenGetNzcv(e, rt');
  }
}
