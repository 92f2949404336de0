/** Bitfield moves of the A64 translator: alias shortcuts and the general deposit. */
module A64Bitfield {
  import opened Bits
  import opened Tcg
  import opened A64Words
  import opened A64Arith

  // ----- The architecture: section C3.4.2 of ARM DDI 0487A.a and its DecodeBitMasks

  function Wrap(k: nat, w: nat): nat {
    if k < w then k else k - w
  }

  /** Rotate right. */
  function Ror(a: Word, r: nat): Word
    requires r <= |a|
  {
    seq(|a|, i requires 0 <= i < |a| => a[Wrap(i + r, |a|)])
  }

  /** S - R modulo the width. */
  function Diff(s: nat, r: nat, w: nat): nat
    requires s < w && r < w
  {
    if s >= r then s - r else s + w - r
  }

  function Wmask(w: nat, r: nat, s: nat): (m: Word)
    requires r < w && s < w
    ensures |m| == w
  {
    Ror(Mask(w, s + 1), r)
  }

  function Tmask(w: nat, r: nat, s: nat): (m: Word)
    requires r < w && s < w
    ensures |m| == w
  {
    Mask(w, Diff(s, r, w) + 1)
  }

  /** The bits moved into place: bot of the pseudocode.  opc is 0 for SBFM, 1 for BFM, 2 for UBFM. */
  function Bot(opc: nat, src: Word, dst: Word, r: nat, s: nat): (b: Word)
    requires |src| == |dst| && r < |src| && s < |src|
    ensures |b| == |src|
  {
    var wmask := Wmask(|src|, r, s);
    if opc == 1 then Or(And(dst, Not(wmask)), And(Ror(src, r), wmask)) else And(Ror(src, r), wmask)
  }

  function Top(opc: nat, src: Word, dst: Word, s: nat): (t: Word)
    requires |src| == |dst| && s < |src|
    ensures |t| == |src|
  {
    if opc == 0 then seq(|src|, i => src[s]) else if opc == 1 then dst else Zero(|src|)
  }

  /** The result of the instruction. */
  function BitMove(opc: nat, src: Word, dst: Word, r: nat, s: nat): (m: Word)
    requires |src| == |dst| && r < |src| && s < |src|
    ensures |m| == |src|
  {
    var tmask := Tmask(|src|, r, s);
    Or(And(Top(opc, src, dst, s), Not(tmask)), And(Bot(opc, src, dst, r, s), tmask))
  }

  /** The same bit by bit. */
  function MovedBit(opc: nat, src: Word, dst: Word, r: nat, s: nat, i: nat): bool
    requires |src| == |dst| && r < |src| && s < |src| && i < |src|
  {
    if i <= Diff(s, r, |src|) then
      if Wrap(i + r, |src|) <= s then src[Wrap(i + r, |src|)] else opc == 1 && dst[i]
    else if opc == 0 then src[s] else opc == 1 && dst[i]
  }

  lemma BitMoveBits(opc: nat, src: Word, dst: Word, r: nat, s: nat)
    requires |src| == |dst| && r < |src| && s < |src|
    ensures forall i :: 0 <= i < |src| ==> BitMove(opc, src, dst, r, s)[i] == MovedBit(opc, src, dst, r, s, i)
  {
    var w, b, t, m := |src|, Bot(opc, src, dst, r, s), Top(opc, src, dst, s), Wmask(|src|, r, s);
    forall i | 0 <= i < w ensures BitMove(opc, src, dst, r, s)[i] == MovedBit(opc, src, dst, r, s, i) {
      assert m[i] == (Wrap(i + r, w) <= s);
      assert b[i] == if m[i] then src[Wrap(i + r, w)] else opc == 1 && dst[i];
    }
  }

  // ----- What the emitted sequences compute

  /** bitmask64: the low length bits. */
  function Bitmask64(length: nat): (m: Word)
    requires 0 < length <= 64
    ensures m == Mask(64, length)
  {
    Shr(Not(Zero(64)), 64 - length)
  }

  predicate ShiftForm(ri: nat, si: nat) {
    si == 63 || (si == 31 && ri <= si)
  }

  predicate SignedShortcut(ri: nat, si: nat) {
    (ri == 0 && (si == 7 || si == 15)) || ShiftForm(ri, si)
  }

  function SignedValue(t: Word, ri: nat, si: nat): Word {
    if ri == 0 && si == 7 then UnVal(Ext8s, t)
    else if ri == 0 && si == 15 then UnVal(Ext16s, t)
    else if ri == 0 && si == 31 then UnVal(Ext32s, t)
    else ShiftVal(Sar, if si == 31 then UnVal(Ext32s, t) else t, ri)
  }

  predicate LslForm(w: nat, ri: nat, si: nat) {
    si + 1 == ri && si + 1 != w
  }

  predicate UnsignedShortcut(w: nat, ri: nat, si: nat) {
    ri == 0 || ShiftForm(ri, si) || LslForm(w, ri, si)
  }

  function UnsignedValue(t: Word, w: nat, ri: nat, si: nat): Word
    requires |t| == 64 && si < w <= 64
  {
    if ri == 0 then BinVal(AndOp, t, Bitmask64(si + 1))
    else if ShiftForm(ri, si) then ShiftVal(ShrOp, if si == 31 then UnVal(Ext32u, t) else t, ri)
    else ShiftVal(ShlOp, t, w - 1 - si)
  }

  function Pos(w: nat, ri: nat, si: nat): nat
    requires ri <= w
  {
    if si >= ri then 0 else w - ri
  }

  function Len(ri: nat, si: nat): nat {
    if si >= ri then si - ri + 1 else si + 1
  }

  function DepositedValue(opc: nat, t: Word, d: Word, w: nat, ri: nat, si: nat): Word
    requires |t| == |d| == 64 && ri < w && si < w <= 64
  {
    var pos, len := Pos(w, ri, si), Len(ri, si);
    var m := DepositVal(if opc != 1 then Zero(64) else d, if si >= ri then ShiftVal(ShrOp, t, ri) else t, pos, len);
    if opc == 0 then ShiftVal(Sar, ShiftVal(ShlOp, m, 64 - (pos + len)), 64 - (pos + len)) else m
  }

  /** The final zero extension of the 32-bit form. */
  function Finish(a: Word, sf: bool): Word {
    if sf then a else UnVal(Ext32u, a)
  }

  /** The expected content of the destination. */
  function Expected(opc: nat, sf: bool, t: Word, d: Word, ri: nat, si: nat): Word
    requires |t| == |d| == 64 && ri < Bitsize(sf) && si < Bitsize(sf)
  {
    Resize(BitMove(opc, Part(t, sf), Part(d, sf), ri, si), 64)
  }

  lemma ExpectedBits(opc: nat, sf: bool, t: Word, d: Word, ri: nat, si: nat)
    requires |t| == |d| == 64 && ri < Bitsize(sf) && si < Bitsize(sf)
    ensures |Expected(opc, sf, t, d, ri, si)| == 64
    ensures forall i ::
              0 <= i < Bitsize(sf) ==>
                Expected(opc, sf, t, d, ri, si)[i] == MovedBit(opc, Part(t, sf), Part(d, sf), ri, si, i)
    ensures forall i :: Bitsize(sf) <= i < 64 ==> !Expected(opc, sf, t, d, ri, si)[i]
    ensures forall i :: 0 <= i < Bitsize(sf) ==> Part(t, sf)[i] == t[i] && Part(d, sf)[i] == d[i]
  {
    hide BitMove, MovedBit;
    BitMoveBits(opc, Part(t, sf), Part(d, sf), ri, si);
  }

  lemma SignedIsExpected(sf: bool, t: Word, d: Word, ri: nat, si: nat)
    requires |t| == |d| == 64 && ri < Bitsize(sf) && si < Bitsize(sf) && SignedShortcut(ri, si)
    ensures Finish(SignedValue(t, ri, si), sf) == Expected(0, sf, t, d, ri, si)
  {
    hide Expected, Part;
    ExpectedBits(0, sf, t, d, ri, si);
    var a, x := Finish(SignedValue(t, ri, si), sf), Expected(0, sf, t, d, ri, si);
    forall i | 0 <= i < 64 ensures a[i] == x[i] {
    }
  }

  lemma UnsignedIsExpected(sf: bool, t: Word, d: Word, ri: nat, si: nat)
    requires |t| == |d| == 64 && ri < Bitsize(sf) && si < Bitsize(sf) && UnsignedShortcut(Bitsize(sf), ri, si)
    ensures Finish(UnsignedValue(t, Bitsize(sf), ri, si), sf) == Expected(2, sf, t, d, ri, si)
    ensures !LslForm(Bitsize(sf), ri, si) || ri == 0 || ShiftForm(ri, si) ==>
              UnsignedValue(t, Bitsize(sf), ri, si) == Expected(2, sf, t, d, ri, si)
  {
    hide Expected, Part;
    ExpectedBits(2, sf, t, d, ri, si);
    var v, x := UnsignedValue(t, Bitsize(sf), ri, si), Expected(2, sf, t, d, ri, si);
    var a := Finish(v, sf);
    forall i | 0 <= i < 64
      ensures a[i] == x[i]
      ensures !LslForm(Bitsize(sf), ri, si) || ri == 0 || ShiftForm(ri, si) ==> v[i] == x[i]
    {
    }
  }

  /** The bits taken from the source. */
  lemma ShiftedBit(t: Word, ri: nat, k: nat)
    requires |t| == 64 && k + ri < 64
    ensures ShiftVal(ShrOp, t, ri)[k] == t[k + ri]
  {
  }

  /** The deposit, bit by bit. */
  lemma DepositBit(opc: nat, t: Word, d: Word, w: nat, ri: nat, si: nat, i: nat)
    requires |t| == |d| == 64 && ri < w && si < w <= 64 && i < 64
    ensures var pos, len := Pos(w, ri, si), Len(ri, si);
            && pos + len <= w
            && DepositVal(if opc != 1 then Zero(64) else d, if si >= ri then ShiftVal(ShrOp, t, ri) else t, pos, len)[i]
               == if pos <= i < pos + len then t[if si >= ri then i + ri else i - pos] else opc == 1 && d[i]
  {
    hide ShiftVal;
    if si >= ri && i < Len(ri, si) { ShiftedBit(t, ri, i); }
  }

  /** A shift to the left and back: the bits from 64 - k on are copies of the one below. */
  lemma ExtendedBit(m: Word, k: nat, i: nat)
    requires |m| == 64 && k < 64 && i < 64
    ensures ShiftVal(Sar, ShiftVal(ShlOp, m, k), k)[i] == m[if i + k < 64 then i else 63 - k]
  {
    var x := ShiftVal(ShlOp, m, k);
    assert x[if i + k < 64 then i + k else 63] == m[if i + k < 64 then i else 63 - k];
  }

  /** The deposit and its sign extension, bit by bit. */
  lemma DepositedBit(opc: nat, t: Word, d: Word, w: nat, ri: nat, si: nat, i: nat)
    requires |t| == |d| == 64 && ri < w && si < w <= 64 && i < 64
    ensures var pos, len := Pos(w, ri, si), Len(ri, si);
            pos + len <= w
            && DepositedValue(opc, t, d, w, ri, si)[i] ==
               if pos <= i < pos + len then t[if si >= ri then i + ri else i - pos]
               else if opc == 0 then i >= pos + len && t[si]
               else opc == 1 && d[i]
  {
    hide ShiftVal, DepositVal;
    var pos, len := Pos(w, ri, si), Len(ri, si);
    var m := DepositVal(if opc != 1 then Zero(64) else d, if si >= ri then ShiftVal(ShrOp, t, ri) else t, pos, len);
    DepositBit(opc, t, d, w, ri, si, i);
    DepositBit(opc, t, d, w, ri, si, pos + len - 1);
    if opc == 0 { ExtendedBit(m, 64 - (pos + len), i); }
  }

  lemma DepositIsExpected(opc: nat, sf: bool, t: Word, d: Word, ri: nat, si: nat)
    requires |t| == |d| == 64 && ri < Bitsize(sf) && si < Bitsize(sf) && opc <= 2
    ensures Finish(DepositedValue(opc, t, d, Bitsize(sf), ri, si), sf) == Expected(opc, sf, t, d, ri, si)
  {
    hide Expected, Part, DepositedValue;
    ExpectedBits(opc, sf, t, d, ri, si);
    var v, x := DepositedValue(opc, t, d, Bitsize(sf), ri, si), Expected(opc, sf, t, d, ri, si);
    DepositedWidth(opc, t, d, Bitsize(sf), ri, si);
    forall i | 0 <= i < 64 ensures Finish(v, sf)[i] == x[i] {
      DepositedBit(opc, t, d, Bitsize(sf), ri, si, i);
    }
  }

  lemma DepositedWidth(opc: nat, t: Word, d: Word, w: nat, ri: nat, si: nat)
    requires |t| == |d| == 64 && ri < w && si < w <= 64
    ensures |DepositedValue(opc, t, d, w, ri, si)| == 64
  {
  }

  // ----- Emission

  /** The SBFM aliases: sign extensions and arithmetic shift. */
  method SignedAlias(e: Emitter, dest: Var, tmp: Var, ri: nat, si: nat) returns (done: bool)
    requires e.Valid() && Width(dest) == Width(tmp) == 64
    modifies e`ops, e`cur
    ensures e.Valid() && (done <==> SignedShortcut(ri, si))
    ensures done ==> Get(e.cur, dest) == SignedValue(Get(old(e.cur), tmp), ri, si)
    ensures !done ==> e.cur == old(e.cur)
    ensures forall v: Var {:trigger Get(e.cur, v)} :: v != dest && v != tmp ==> Get(e.cur, v) == Get(old(e.cur), v)
  {
    hide Run, Emitter.Valid, Get, UnVal, ShiftVal;
    if ri == 0 {
      if si == 7 {
        e.Un(Ext8s, dest, tmp);
        return true;
      } else if si == 15 {
        e.Un(Ext16s, dest, tmp);
        return true;
      } else if si == 31 {
        e.Un(Ext32s, dest, tmp);
        return true;
      }
    }
    if si == 63 || (si == 31 && ri <= si) {
      if si == 31 {
        e.Un(Ext32s, tmp, tmp);
      }
      e.ShiftImm(Sar, dest, tmp, ri);
      return true;
    }
    done := false;
  }

  /** The UBFM aliases.  Only the left shift is zero-extended afterwards. */
  method UnsignedAlias(e: Emitter, dest: Var, tmp: Var, bitsize: nat, ri: nat, si: nat)
    returns (done: bool, extend: bool)
    requires e.Valid() && Width(dest) == Width(tmp) == 64 && si < bitsize <= 64
    modifies e`ops, e`cur
    ensures e.Valid() && (done <==> UnsignedShortcut(bitsize, ri, si))
    ensures done ==> Get(e.cur, dest) == UnsignedValue(Get(old(e.cur), tmp), bitsize, ri, si)
    ensures done ==> extend == !(ri == 0 || ShiftForm(ri, si))
    ensures !done ==> e.cur == old(e.cur)
    ensures forall v: Var {:trigger Get(e.cur, v)} :: v != dest && v != tmp ==> Get(e.cur, v) == Get(old(e.cur), v)
  {
    hide Run, Emitter.Valid, Get, UnVal, ShiftVal, BinVal, Bitmask64, Mask;
    extend := false;
    MaskWidth(si + 1);
    if ri == 0 {
      e.BinImm(AndOp, dest, tmp, Bitmask64(si + 1));
      return true, false;
    }
    if si == 63 || (si == 31 && ri <= si) {
      if si == 31 {
        e.Un(Ext32u, tmp, tmp);
      }
      e.ShiftImm(ShrOp, dest, tmp, ri);
      return true, false;
    }
    if si + 1 == ri && si != bitsize - 1 {
      e.ShiftImm(ShlOp, dest, tmp, bitsize - 1 - si);
      return true, true;
    }
    done := false;
  }

  lemma MaskWidth(n: nat)
    ensures |Mask(64, n)| == 64
  {
  }

  /** The bit move operation and the sign extension of the field. */
  method DepositField(e: Emitter, opc: nat, dest: Var, tmp: Var, bitsize: nat, ri: nat, si: nat)
    requires e.Valid() && Width(dest) == Width(tmp) == 64 && dest != tmp && ri < bitsize && si < bitsize <= 64
    modifies e`ops, e`cur
    ensures e.Valid()
    ensures Get(e.cur, dest) == DepositedValue(opc, Get(old(e.cur), tmp), Get(old(e.cur), dest), bitsize, ri, si)
    ensures forall v: Var {:trigger Get(e.cur, v)} :: v != dest && v != tmp ==> Get(e.cur, v) == Get(old(e.cur), v)
  {
    hide Run, Emitter.Valid, Get, ShiftVal, DepositVal;
    if opc != 1 {
      FalseIsZero(64);
      e.Movi(dest, Zero(64));
    }
    var pos: nat, len: nat;
    if si >= ri {
      e.ShiftImm(ShrOp, tmp, tmp, ri);
      pos := 0;
      len := si - ri + 1;
    } else {
      pos := bitsize - ri;
      len := si + 1;
    }
    e.Deposit(dest, dest, tmp, pos, len);
    if opc == 0 {
      e.ShiftImm(ShlOp, dest, dest, 64 - (pos + len));
      e.ShiftImm(Sar, dest, dest, 64 - (pos + len));
    }
  }

  /** What SBFM, BFM and UBFM do to the registers; the flags stay. */
  ghost predicate BitfieldMoved(s: Store, s': Store, sf: bool, opc: nat, ri: nat, si: nat, rn: nat, rd: nat)
    requires ri < Bitsize(sf) && si < Bitsize(sf)
  {
    && (rd != 31 ==> Get(s', X(rd)) == Expected(opc, sf, Reg(s, rn), Reg(s, rd), ri, si))
    && OtherRegisters(s, s', rd) && FlagsOf(s') == FlagsOf(s) && (CarryIsBit(s) ==> CarryIsBit(s'))
  }

  /** The choice between the shortcuts and the general path. */
  method MoveField(e: Emitter, sf: bool, opc: nat, ri: nat, si: nat, dest: Var, tmp: Var)
    requires e.Valid() && Width(dest) == Width(tmp) == 64 && dest != tmp && ri < Bitsize(sf) && si < Bitsize(sf)
             && opc <= 2
    modifies e`ops, e`cur
    ensures e.Valid()
    ensures Get(e.cur, dest) == Expected(opc, sf, Get(old(e.cur), tmp), Get(old(e.cur), dest), ri, si)
    ensures forall v: Var {:trigger Get(e.cur, v)} :: v != dest && v != tmp ==> Get(e.cur, v) == Get(old(e.cur), v)
  {
    hide Run, Emitter.Valid, Get, SignedValue, UnsignedValue, DepositedValue, Expected, UnVal;
    ghost var t, d := Get(e.cur, tmp), Get(e.cur, dest);
    var bitsize := Bitsize(sf);
    var done := false;
    if opc == 0 {
      if SignedShortcut(ri, si) { SignedIsExpected(sf, t, d, ri, si); }
      done := SignedAlias(e, dest, tmp, ri, si);
    } else if opc == 2 {
      if UnsignedShortcut(bitsize, ri, si) { UnsignedIsExpected(sf, t, d, ri, si); }
      var extend;
      done, extend := UnsignedAlias(e, dest, tmp, bitsize, ri, si);
      if done && !extend {
        return;
      }
    }
    if !done {
      DepositIsExpected(opc, sf, t, d, ri, si);
      DepositField(e, opc, dest, tmp, bitsize, ri, si);
    }
    if !sf {
      e.Un(Ext32u, dest, dest);
    }
  }

  /** accepted is false for an unallocated encoding, for which nothing is emitted. */
  method DisasBitfield(e: Emitter, insn: Word) returns (accepted: bool)
    requires |insn| == 32 && e.Valid()
    modifies e
    ensures e.Valid()
    ensures accepted <==>
              && insn[31] == insn[22] && Field(insn, 29, 2) <= 2
              && Field(insn, 16, 6) < Bitsize(insn[31]) && Field(insn, 10, 6) < Bitsize(insn[31])
    ensures !accepted ==> e.ops == old(e.ops)
    ensures accepted ==>
              BitfieldMoved(old(e.cur), e.cur, insn[31], Field(insn, 29, 2), Field(insn, 16, 6), Field(insn, 10, 6),
                      Field(insn, 5, 5), Field(insn, 0, 5))
  {
    hide BitfieldMoved, Field;
    var sf, n, opc, ri, si := insn[31], insn[22], Field(insn, 29, 2), Field(insn, 16, 6), Field(insn, 10, 6);
    if sf != n || ri >= Bitsize(sf) || si >= Bitsize(sf) || opc > 2 {
      return false;
    }
    Bitfield(e, sf, opc, ri, si, Field(insn, 5, 5), Field(insn, 0, 5));
    accepted := true;
  }

  /** The emitting part of disas_bitfield.  The source is copied first, so rd may equal rn. */
  method Bitfield(e: Emitter, sf: bool, opc: nat, ri: nat, si: nat, rn: nat, rd: nat)
    requires e.Valid() && ri < Bitsize(sf) && si < Bitsize(sf) && opc <= 2
    modifies e
    ensures e.Valid() && BitfieldMoved(old(e.cur), e.cur, sf, opc, ri, si, rn, rd)
  {
    hide Run, Emitter.Valid, Get, Expected, FlagsOf, CarryIsBit, Part, Zero;
    ghost var s0 := e.cur;
    var dest := CpuReg(e, rd);
    var tmp := ReadCpuReg(e, rn, true);
    WholePart(Reg(s0, rn));
    MoveField(e, sf, opc, ri, si, dest, tmp);
    FlagsKept(s0, e.cur);
  }

  lemma FlagsKept(s: Store, s': Store)
    requires forall v: Var :: IsFlag(v) ==> Get(s', v) == Get(s, v)
    ensures FlagsOf(s') == FlagsOf(s) && (CarryIsBit(s) ==> CarryIsBit(s'))
  {
    hide Get;
  }
}
