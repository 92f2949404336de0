/** Conditional compare: the comparison's flags, or the literal ones, without a branch. */
module A64Compare {
  import opened Bits
  import opened Tcg
  import opened A64Words
  import opened A64Arith

  /** All ones or all zeros. */
  function Fill(b: bool): (r: Word)
    ensures |r| == 32
  {
    seq(32, i => b)
  }

  lemma {:induction false} OnesValue(w: nat)
    ensures Val(seq(w, i => true)) == Pow2(w) - 1
  {
    if w > 0 {
      assert seq(w, i => true)[1..] == seq(w - 1, i => true);
      OnesValue(w - 1);
    }
  }

  /** The words that the masks are computed as. */
  lemma FillFromNat(b: bool)
    ensures FromNat(32, if b then Pow2(32) - 1 else 0) == Fill(b)
    ensures FromNat(32, if b then 2 * Pow2(32) - 1 else Pow2(32)) == Fill(b)
  {
    hide Val, FromNat, Pow2;
    var p := Pow2(32);
    assert p >= 1;
    OnesValue(32);
    ValOfZero(32);
    FromNatVal(Fill(b));
    assert Fill(b) == if b then seq(32, i => true) else Zero(32);
    FromNatWraps(32, if b then p - 1 else 0);
  }

  /** The two masks made of a truth value. */
  lemma Masks(b: bool)
    ensures UnVal(Neg, Truth(32, b)) == Fill(b)
    ensures BinVal(Sub, Truth(32, b), Truth(32, true)) == Fill(!b)
  {
    hide Val, FromNat, Truth, Fill, Pow2;
    TruthValue(32, b);
    TruthValue(32, true);
    FillFromNat(b);
    FillFromNat(!b);
  }

  /** The variables t1 and t2 hold the mask for b and its complement, and t0 the truth value. */
  ghost predicate MasksFor(s: Store, t0: Var, t1: Var, t2: Var, b: bool) {
    && t0.T32? && t1.T32? && t2.T32?
    && Get(s, t0) == Truth(32, b) && Get(s, t1) == Fill(b) && Get(s, t2) == Fill(!b)
  }

  /** Clear f when b holds: one of two forms, whichever the host has. */
  method Clear(e: Emitter, hasAndc: bool, f: Var, ghost t0: Var, t1: Var, t2: Var, ghost b: bool)
    requires e.Valid() && IsFlag(f) && MasksFor(e.cur, t0, t1, t2, b)
    modifies e`ops, e`cur
    ensures e.Valid() && Get(e.cur, f) == if b then Zero(32) else Get(old(e.cur), f)
    ensures Elsewhere(old(e.cur), e.cur, f) && MasksFor(e.cur, t0, t1, t2, b)
  {
    hide Get, Run, Emitter.Valid, BinVal, Fill;
    Cleared(Get(e.cur, f), b);
    if hasAndc {
      e.Bin(Andc, f, f, t1);
    } else {
      e.Bin(AndOp, f, f, t2);
    }
  }

  lemma Cleared(a: Word, b: bool)
    requires |a| == 32
    ensures BinVal(Andc, a, Fill(b)) == (if b then Zero(32) else a) == BinVal(AndOp, a, Fill(!b))
  {
  }

  /** Force a sign flag to set when b holds. */
  method ForceSign(e: Emitter, hasAndc: bool, f: Var, set_: bool, ghost t0: Var, t1: Var, t2: Var, ghost b: bool)
    requires e.Valid() && IsFlag(f) && MasksFor(e.cur, t0, t1, t2, b)
    modifies e`ops, e`cur
    ensures e.Valid() && Get(e.cur, f)[31] == if b then set_ else Get(old(e.cur), f)[31]
    ensures Elsewhere(old(e.cur), e.cur, f) && MasksFor(e.cur, t0, t1, t2, b)
  {
    hide Get, Run, Emitter.Valid;
    if set_ {
      e.Bin(OrOp, f, f, t1);
    } else {
      Clear(e, hasAndc, f, t0, t1, t2, b);
    }
  }

  method ForceZero(e: Emitter, hasAndc: bool, set_: bool, t0: Var, t1: Var, t2: Var, ghost b: bool)
    requires e.Valid() && MasksFor(e.cur, t0, t1, t2, b)
    modifies e`ops, e`cur
    ensures e.Valid() && (Val(Get(e.cur, ZF)) == 0 <==> if b then set_ else Val(Get(old(e.cur), ZF)) == 0)
    ensures Elsewhere(old(e.cur), e.cur, ZF) && MasksFor(e.cur, t0, t1, t2, b)
  {
    hide Get, Run, Emitter.Valid, Val, BinVal;
    ValOfZero(32);
    if set_ {
      Clear(e, hasAndc, ZF, t0, t1, t2, b);
    } else {
      OrTruth(Get(e.cur, ZF), b);
      e.Bin(OrOp, ZF, ZF, t0);
    }
  }

  lemma OrTruth(a: Word, b: bool)
    requires |a| == 32
    ensures Val(BinVal(OrOp, a, Truth(32, b))) == 0 <==> !b && Val(a) == 0
    ensures a == Truth(32, a[0]) ==> BinVal(OrOp, a, Truth(32, b)) == Truth(32, a[0] || b)
  {
    hide Val;
    var o := BinVal(OrOp, a, Truth(32, b));
    ValZero(a);
    ValZero(o);
    forall i | 0 <= i < 32 ensures o[i] == (a[i] || (i == 0 && b)) {
    }
  }

  method ForceCarry(e: Emitter, hasAndc: bool, set_: bool, t0: Var, t1: Var, t2: Var, ghost b: bool)
    requires e.Valid() && MasksFor(e.cur, t0, t1, t2, b) && CarryIsBit(e.cur)
    modifies e`ops, e`cur
    ensures e.Valid() && CarryIsBit(e.cur) && Get(e.cur, CF)[0] == if b then set_ else Get(old(e.cur), CF)[0]
    ensures Elsewhere(old(e.cur), e.cur, CF) && MasksFor(e.cur, t0, t1, t2, b)
  {
    hide Get, Run, Emitter.Valid, Val, BinVal;
    OrTruth(Get(e.cur, CF), b);
    FalseIsZero(32);
    if set_ {
      e.Bin(OrOp, CF, CF, t0);
    } else {
      Clear(e, hasAndc, CF, t0, t1, t2, b);
    }
  }

  /** The last part of disas_cc: force the flags to the literal ones when t0 holds. */
  method ForceFlags(e: Emitter, hasAndc: bool, nzcv: Word, t0: Var, t1: Var, t2: Var, ghost b: bool)
    requires e.Valid() && |nzcv| == 4 && MasksFor(e.cur, t0, t1, t2, b) && CarryIsBit(e.cur)
    modifies e`ops, e`cur
    ensures e.Valid() && CarryIsBit(e.cur)
    ensures FlagsOf(e.cur) == if b then Flags(nzcv[3], nzcv[2], nzcv[1], nzcv[0]) else FlagsOf(old(e.cur))
    ensures forall v: Var {:trigger Get(e.cur, v)} :: !IsFlag(v) ==> Get(e.cur, v) == Get(old(e.cur), v)
  {
    hide Get, Run, Emitter.Valid, Val, Fill, Truth, MasksFor, FlagsOf, CarryIsBit;
    ghost var s0 := e.cur;
    ForceSign(e, hasAndc, NF, nzcv[3], t0, t1, t2, b);
    CarryInRegister(s0, e.cur);
    ForceZero(e, hasAndc, nzcv[2], t0, t1, t2, b);
    CarryInRegister(s0, e.cur);
    ForceCarry(e, hasAndc, nzcv[1], t0, t1, t2, b);
    ghost var s1 := e.cur;
    ForceSign(e, hasAndc, VF, nzcv[0], t0, t1, t2, b);
    CarryInRegister(s1, e.cur);
    FlagsAre(s0, FlagsOf(s0));
    FlagsAre(e.cur, if b then Flags(nzcv[3], nzcv[2], nzcv[1], nzcv[0]) else FlagsOf(s0));
  }

  lemma CarryInRegister(s: Store, s': Store)
    requires CarryIsBit(s) && Get(s', CF) == Get(s, CF)
    ensures CarryIsBit(s')
  {
  }

  lemma FlagsAre(s: Store, f: Flags)
    ensures FlagsOf(s) == f
            <==> Get(s, NF)[31] == f.n && (Val(Get(s, ZF)) == 0) == f.z && Get(s, CF)[0] == f.c && Get(s, VF)[31] == f.v
  {
    hide Get, Val;
  }

  /** The second operand: a register or a five-bit literal. */
  function Second(s: Store, isImm: bool, y: nat): (w: Word)
    ensures |w| == 64
  {
    if isImm then FromNat(64, y) else Reg(s, y)
  }

  /** CCMN and CCMP, immediate and register (sections C3.5.4 and C3.5.5 of ARM DDI 0487A.a): no
      register changes, and the flags are those of the comparison if the condition holds. */
  ghost predicate Compared(s: Store, s': Store, sf: bool, op: bool, isImm: bool, y: nat, rn: nat, nzcv: Word,
          holds: bool)
    requires |nzcv| == 4
  {
    var a, b := Part(Reg(s, rn), sf), Part(Second(s, isImm, y), sf);
    && CarryIsBit(s')
    && (forall i: nat {:trigger Get(s', X(i))} :: Get(s', X(i)) == Get(s, X(i)))
    && FlagsOf(s') == if holds then SumFlags(a, if op then Not(b) else b, op)
                      else Flags(nzcv[3], nzcv[2], nzcv[1], nzcv[0])
  }

  method LoadSecond(e: Emitter, isImm: bool, y: nat) returns (v: Var)
    requires e.Valid()
    modifies e
    ensures e.Valid() && e.temps >= old(e.temps) && Operand(v, e.temps) && Get(e.cur, v) == Second(old(e.cur), isImm, y)
    ensures forall u: Var {:trigger Get(e.cur, u)} :: Older(u, old(e.temps)) ==> Get(e.cur, u) == Get(old(e.cur), u)
  {
    hide Get, Run, Emitter.Valid, FromNat;
    if isImm {
      v := T64(e.temps);
      e.temps := e.temps + 1;
      e.Movi(v, FromNat(64, y));
    } else {
      v := CpuReg(e, y);
    }
  }

  method CompareInto(e: Emitter, sf: bool, op: bool, tmp: Var, rn: Var, y: Var)
    requires e.Valid() && Operand(tmp, e.temps) && Operand(rn, e.temps) && Operand(y, e.temps)
    modifies e
    ensures e.Valid() && CarryIsBit(e.cur) && e.temps >= old(e.temps)
    ensures var a, b := Part(Get(old(e.cur), rn), sf), Part(Get(old(e.cur), y), sf);
            FlagsOf(e.cur) == SumFlags(a, if op then Not(b) else b, op)
    ensures OnlyFlagsAnd(old(e.cur), e.cur, tmp, old(e.temps))
  {
    hide Get, Run, Emitter.Valid, Part, SumFlags, FlagsOf, CarryIsBit, Not;
    NotWidth(Part(Get(e.cur, y), sf));
    if op {
      GenSubCC(e, sf, tmp, rn, y);
    } else {
      GenAddCC(e, sf, tmp, rn, y);
    }
  }

  /** Load the operands and set the flags for the new comparison. */
  method NewFlags(e: Emitter, sf: bool, op: bool, isImm: bool, y: nat, rn: nat)
    requires e.Valid()
    modifies e
    ensures e.Valid() && CarryIsBit(e.cur) && e.temps >= old(e.temps)
    ensures var a, b := Part(Reg(old(e.cur), rn), sf), Part(Second(old(e.cur), isImm, y), sf);
            FlagsOf(e.cur) == SumFlags(a, if op then Not(b) else b, op)
    ensures forall v: Var {:trigger Get(e.cur, v)} ::
              Older(v, old(e.temps)) && !IsFlag(v) ==> Get(e.cur, v) == Get(old(e.cur), v)
  {
    hide Get, Run, Emitter.Valid, Part, SumFlags, FlagsOf, CarryIsBit, Not, Zero, FromNat;
    var right := LoadSecond(e, isImm, y);
    var left := CpuReg(e, rn);
    var tmp := T64(e.temps);
    e.temps := e.temps + 1;
    CompareInto(e, sf, op, tmp, left, right);
  }

  /** T1 and T2 made of T0. */
  method MakeMasks(e: Emitter, t0: Var, ghost b: bool) returns (t1: Var, t2: Var)
    requires e.Valid() && t0.T32? && Older(t0, e.temps) && Get(e.cur, t0) == Truth(32, b) && CarryIsBit(e.cur)
    modifies e
    ensures e.Valid() && MasksFor(e.cur, t0, t1, t2, b) && CarryIsBit(e.cur) && FlagsOf(e.cur) == FlagsOf(old(e.cur))
    ensures forall v: Var {:trigger Get(e.cur, v)} :: Older(v, old(e.temps)) ==> Get(e.cur, v) == Get(old(e.cur), v)
  {
    hide Get, Run, Emitter.Valid, FlagsOf, CarryIsBit, UnVal, BinVal, Truth, Fill;
    ghost var s1 := e.cur;
    t1, t2 := T32(e.temps), T32(e.temps + 1);
    e.temps := e.temps + 2;
    Masks(b);
    e.Un(Neg, t1, t0);
    e.BinImm(Sub, t2, t0, Truth(32, true));
    CarryKept(s1, e.cur);
  }

  /** The emitting part of disas_cc.  cond and value are what arm_test_cc made of the condition
      field: the condition holds when value stands in relation cond to zero. */
  method ConditionalCompare(e: Emitter, hasAndc: bool, cond: Cond, value: Var, sf: bool, op: bool, isImm: bool, y: nat,
          rn: nat, nzcv: Word)
    requires e.Valid() && |nzcv| == 4 && Width(value) == 32 && Older(value, e.temps)
    modifies e
    ensures e.Valid()
            && Compared(old(e.cur), e.cur, sf, op, isImm, y, rn, nzcv, Holds(cond, Get(old(e.cur), value), Zero(32)))
  {
    hide Get, Run, Emitter.Valid, Part, SumFlags, FlagsOf, CarryIsBit, Not, Holds, Truth, Zero, FromNat, MasksFor;
    ghost var b := !Holds(cond, Get(e.cur, value), Zero(32));
    var t0 := T32(e.temps);
    e.temps := e.temps + 1;
    FalseIsZero(32);
    InvertNegates(cond, Get(e.cur, value), Zero(32));
    e.SetcondImm(Invert(cond), t0, value, Zero(32));
    NewFlags(e, sf, op, isImm, y, rn);
    var t1, t2 := MakeMasks(e, t0, b);
    ForceFlags(e, hasAndc, nzcv, t0, t1, t2, b);
  }

  /** accepted is false for an unallocated encoding, for which nothing is emitted. */
  method DisasCc(e: Emitter, hasAndc: bool, cond: Cond, value: Var, insn: Word) returns (accepted: bool)
    requires |insn| == 32 && e.Valid() && Width(value) == 32 && Older(value, e.temps)
    modifies e
    ensures e.Valid() && (accepted <==> insn[29] && !insn[10] && !insn[4])
    ensures !accepted ==> e.ops == old(e.ops)
    ensures accepted ==>
              Compared(old(e.cur), e.cur, insn[31], insn[30], insn[11], Field(insn, 16, 5), Field(insn, 5, 5),
                                    insn[0..4], Holds(cond, Get(old(e.cur), value), Zero(32)))
  {
    hide Compared, Holds;
    if !insn[29] {
      return false;
    }
    if insn[10] || insn[4] {
      return false;
    }
    ConditionalCompare(e, hasAndc, cond, value, insn[31], insn[30], insn[11], Field(insn, 16, 5), Field(insn, 5, 5),
        insn[0..4]);
    accepted := true;
  }
}
