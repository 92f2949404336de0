/** The integer operations of the translator's intermediate language: syntax, meaning, emitter. */
module Tcg {
  import opened Bits

  /** Guest registers, the four flag registers, and 32- and 64-bit temporaries. */
  datatype Var = X(i: nat) | NF | ZF | CF | VF | T32(n: nat) | T64(n: nat)

  function Width(v: Var): nat {
    if v.X? || v.T64? then 64 else 32
  }

  type Store = map<Var, Word>

  function Get(s: Store, v: Var): (w: Word)
    ensures |w| == Width(v)
  {
    if v in s && |s[v]| == Width(v) then s[v] else Zero(Width(v))
  }

  datatype Cond = Always | Never | Eq | Ne | Lt | Ge | Le | Gt | Ltu | Geu | Leu | Gtu

  /** tcg_invert_cond */
  function Invert(c: Cond): Cond {
    match c
    case Always => Never
    case Never => Always
    case Eq => Ne
    case Ne => Eq
    case Lt => Ge
    case Ge => Lt
    case Le => Gt
    case Gt => Le
    case Ltu => Geu
    case Geu => Ltu
    case Leu => Gtu
    case Gtu => Leu
  }

  /** The value of a word in two's complement. */
  function SInt(a: Word): int {
    if a != [] && a[|a| - 1] then Val(a) - Pow2(|a|) else Val(a)
  }

  predicate Holds(c: Cond, a: Word, b: Word) {
    match c
    case Always => true
    case Never => false
    case Eq => Val(a) == Val(b)
    case Ne => Val(a) != Val(b)
    case Lt => SInt(a) < SInt(b)
    case Ge => SInt(a) >= SInt(b)
    case Le => SInt(a) <= SInt(b)
    case Gt => SInt(a) > SInt(b)
    case Ltu => Val(a) < Val(b)
    case Geu => Val(a) >= Val(b)
    case Leu => Val(a) <= Val(b)
    case Gtu => Val(a) > Val(b)
  }

  lemma InvertNegates(c: Cond, a: Word, b: Word)
    ensures Holds(Invert(c), a, b) == !Holds(c, a, b)
  {
  }

  datatype Binary = Add | Sub | AndOp | Andc | OrOp | XorOp
  datatype Unary = Mov | NotOp | Neg | Ext8s | Ext16s | Ext32s | Ext32u | ExtU32 | Extrl | Extrh
  datatype Shift = ShlOp | ShrOp | Sar

  function BinVal(k: Binary, a: Word, b: Word): (r: Word)
    requires |a| == |b|
    ensures |r| == |a|
  {
    match k
    case Add => FromNat(|a|, Val(a) + Val(b))
    case Sub => FromNat(|a|, Val(a) + Pow2(|a|) - Val(b))
    case AndOp => And(a, b)
    case Andc => And(a, Not(b))
    case OrOp => Or(a, b)
    case XorOp => Xor(a, b)
  }

  /** Replicate bit n - 1 into the bits above it. */
  function SignExtend(a: Word, n: nat): Word {
    seq(|a|, i requires 0 <= i < |a| => if i < n then a[i] else 0 < n <= |a| && a[n - 1])
  }

  function UnWidth(k: Unary, w: nat): nat {
    match k
    case ExtU32 => 64
    case Extrl => 32
    case Extrh => 32
    case _ => w
  }

  function UnVal(k: Unary, a: Word): (r: Word)
    ensures |r| == UnWidth(k, |a|)
  {
    match k
    case Mov => a
    case NotOp => Not(a)
    case Neg => FromNat(|a|, Pow2(|a|) - Val(a))
    case Ext8s => SignExtend(a, 8)
    case Ext16s => SignExtend(a, 16)
    case Ext32s => SignExtend(a, 32)
    case Ext32u => Resize(Resize(a, 32), |a|)
    case ExtU32 => Resize(a, 64)
    case Extrl => Resize(a, 32)
    case Extrh => Resize(Shr(a, 32), 32)
  }

  function ShiftVal(k: Shift, a: Word, n: nat): (r: Word)
    ensures |r| == |a|
  {
    match k
    case ShlOp => Shl(a, n)
    case ShrOp => Shr(a, n)
    case Sar => seq(|a|, i requires 0 <= i < |a| => if i + n < |a| then a[i + n] else a[|a| - 1])
  }

  /** a with the low len bits of b put in at pos. */
  function DepositVal(a: Word, b: Word, pos: nat, len: nat): (r: Word)
    requires |a| == |b|
    ensures |r| == |a|
  {
    seq(|a|, i requires 0 <= i < |a| => if pos <= i < pos + len then b[i - pos] else a[i])
  }

  /** Double-width sum. */
  function Sum2(al: Word, ah: Word, bl: Word, bh: Word): nat {
    Val(al) + Val(bl) + Times(Pow2(|al|), Val(ah) + Val(bh))
  }

  function Times(a: nat, b: nat): nat {
    a * b
  }

  function Upper(sum: nat, w: nat): nat {
    Quotient(sum, Pow2(w))
  }

  function Quotient(a: nat, b: nat): nat
    requires b >= 1
  {
    a / b
  }

  function Truth(w: nat, b: bool): (r: Word)
    ensures |r| == w
  {
    seq(w, i => i == 0 && b)
  }

  datatype Op =
    | Movi(d: Var, value: Word)
    | Bin(bin: Binary, d: Var, a: Var, b: Var)
    | BinImm(bin: Binary, d: Var, a: Var, value: Word)
    | Un(un: Unary, d: Var, a: Var)
    | ShiftImm(shift: Shift, d: Var, a: Var, n: nat)
    | Setcond(cond: Cond, d: Var, a: Var, b: Var)
    | SetcondImm(cond: Cond, d: Var, a: Var, value: Word)
    | Add2(dl: Var, dh: Var, al: Var, ah: Var, bl: Var, bh: Var)
    | Deposit(d: Var, a: Var, b: Var, pos: nat, len: nat)

  /** Operand and result widths agree; a double-width sum writes two different variables. */
  predicate Typed(op: Op) {
    match op
    case Movi(d, value) => |value| == Width(d)
    case Bin(k, d, a, b) => Width(a) == Width(b) == Width(d)
    case BinImm(k, d, a, value) => Width(a) == |value| == Width(d)
    case Un(k, d, a) => UnWidth(k, Width(a)) == Width(d)
    case ShiftImm(k, d, a, n) => Width(a) == Width(d)
    case Setcond(c, d, a, b) => Width(a) == Width(b) == Width(d)
    case SetcondImm(c, d, a, value) => Width(a) == |value| == Width(d)
    case Add2(dl, dh, al, ah, bl, bh) =>
      dl != dh && Width(dl) == Width(dh) == Width(al) == Width(ah) == Width(bl) == Width(bh)
    case Deposit(d, a, b, pos, len) => Width(a) == Width(b) == Width(d)
  }

  /** The value that an operation gives its (first) destination. */
  function Result(op: Op, s: Store): Word
    requires Typed(op)
  {
    match op
    case Movi(d, value) => value
    case Bin(k, d, a, b) => BinVal(k, Get(s, a), Get(s, b))
    case BinImm(k, d, a, value) => BinVal(k, Get(s, a), value)
    case Un(k, d, a) => UnVal(k, Get(s, a))
    case ShiftImm(k, d, a, n) => ShiftVal(k, Get(s, a), n)
    case Setcond(c, d, a, b) => Truth(Width(d), Holds(c, Get(s, a), Get(s, b)))
    case SetcondImm(c, d, a, value) => Truth(Width(d), Holds(c, Get(s, a), value))
    case Add2(dl, dh, al, ah, bl, bh) => LowSum(Get(s, al), Get(s, ah), Get(s, bl), Get(s, bh))
    case Deposit(d, a, b, pos, len) => DepositVal(Get(s, a), Get(s, b), pos, len)
  }

  /** One operation on the store.  An ill-typed one, which is never emitted, does nothing. */
  function Exec(op: Op, s: Store): Store {
    if !Typed(op) then s
    else if op.Add2? then
      s[op.dl := Result(op, s)][op.dh := HighSum(Get(s, op.al), Get(s, op.ah), Get(s, op.bl), Get(s, op.bh))]
    else s[op.d := Result(op, s)]
  }

  function Run(ops: seq<Op>, s: Store): Store {
    if ops == [] then s else Exec(ops[|ops| - 1], Run(ops[..|ops| - 1], s))
  }

  /** The code buffer.  start is any store at all, and cur what the code emitted so far makes of it:
      emitted code cannot depend on it. */
  class Emitter {
    var ops: seq<Op>
    var temps: nat
    ghost const start: Store
    ghost var cur: Store

    ghost predicate Valid()
      reads `ops, `cur
    {
      cur == Run(ops, start)
    }

    constructor (ghost s: Store)
      ensures Valid() && ops == [] && start == cur == s
    {
      ops, temps, start, cur := [], 0, s, s;
    }

    /** Append an operation with one destination. */
    method Emit(op: Op)
      requires Valid() && Typed(op) && !op.Add2?
      modifies `ops, `cur
      ensures Valid() && ops == old(ops) + [op]
      ensures Get(cur, op.d) == Result(op, old(cur))
      ensures forall v: Var {:trigger Get(cur, v)} :: v != op.d ==> Get(cur, v) == Get(old(cur), v)
    {
      ops := ops + [op];
      cur := Exec(op, cur);
      assert ops[..|ops| - 1] == old(ops);
      ResultWidth(op, old(cur));
    }

    lemma ResultWidth(op: Op, s: Store)
      requires Typed(op)
      ensures |Result(op, s)| == Width(if op.Add2? then op.dl else op.d)
    {
    }

    // The emission functions of the translator, one for each kind of operation.

    method Movi(d: Var, value: Word)
      requires Valid() && |value| == Width(d)
      modifies `ops, `cur
      ensures Valid() && Get(cur, d) == value && Elsewhere(old(cur), cur, d)
    {
      Emit(Op.Movi(d, value));
    }

    method Bin(k: Binary, d: Var, a: Var, b: Var)
      requires Valid() && Width(a) == Width(b) == Width(d)
      modifies `ops, `cur
      ensures Valid() && Get(cur, d) == BinVal(k, Get(old(cur), a), Get(old(cur), b)) && Elsewhere(old(cur), cur, d)
    {
      Emit(Op.Bin(k, d, a, b));
    }

    method BinImm(k: Binary, d: Var, a: Var, value: Word)
      requires Valid() && Width(a) == |value| == Width(d)
      modifies `ops, `cur
      ensures Valid() && Get(cur, d) == BinVal(k, Get(old(cur), a), value) && Elsewhere(old(cur), cur, d)
    {
      Emit(Op.BinImm(k, d, a, value));
    }

    method Un(k: Unary, d: Var, a: Var)
      requires Valid() && UnWidth(k, Width(a)) == Width(d)
      modifies `ops, `cur
      ensures Valid() && Get(cur, d) == UnVal(k, Get(old(cur), a)) && Elsewhere(old(cur), cur, d)
    {
      Emit(Op.Un(k, d, a));
    }

    method ShiftImm(k: Shift, d: Var, a: Var, n: nat)
      requires Valid() && Width(a) == Width(d)
      modifies `ops, `cur
      ensures Valid() && Get(cur, d) == ShiftVal(k, Get(old(cur), a), n) && Elsewhere(old(cur), cur, d)
    {
      Emit(Op.ShiftImm(k, d, a, n));
    }

    method Setcond(c: Cond, d: Var, a: Var, b: Var)
      requires Valid() && Width(a) == Width(b) == Width(d)
      modifies `ops, `cur
      ensures Valid() && Get(cur, d) == Truth(Width(d), Holds(c, Get(old(cur), a), Get(old(cur), b)))
              && Elsewhere(old(cur), cur, d)
    {
      Emit(Op.Setcond(c, d, a, b));
    }

    method SetcondImm(c: Cond, d: Var, a: Var, value: Word)
      requires Valid() && Width(a) == |value| == Width(d)
      modifies `ops, `cur
      ensures Valid() && Get(cur, d) == Truth(Width(d), Holds(c, Get(old(cur), a), value))
              && Elsewhere(old(cur), cur, d)
    {
      Emit(Op.SetcondImm(c, d, a, value));
    }

    method Deposit(d: Var, a: Var, b: Var, pos: nat, len: nat)
      requires Valid() && Width(a) == Width(b) == Width(d)
      modifies `ops, `cur
      ensures Valid() && Get(cur, d) == DepositVal(Get(old(cur), a), Get(old(cur), b), pos, len)
              && Elsewhere(old(cur), cur, d)
    {
      Emit(Op.Deposit(d, a, b, pos, len));
    }

    method Add2(dl: Var, dh: Var, al: Var, ah: Var, bl: Var, bh: Var)
      requires Valid() && dl != dh && Width(dl) == Width(dh) == Width(al) == Width(ah) == Width(bl) == Width(bh)
      modifies `ops, `cur
      ensures Valid()
      ensures Get(cur, dl) == LowSum(Get(old(cur), al), Get(old(cur), ah), Get(old(cur), bl), Get(old(cur), bh))
      ensures Get(cur, dh) == HighSum(Get(old(cur), al), Get(old(cur), ah), Get(old(cur), bl), Get(old(cur), bh))
      ensures forall v: Var {:trigger Get(cur, v)} :: v != dl && v != dh ==> Get(cur, v) == Get(old(cur), v)
    {
      hide LowSum, HighSum;
      var op := Op.Add2(dl, dh, al, ah, bl, bh);
      ops := ops + [op];
      cur := Exec(op, cur);
      assert ops[..|ops| - 1] == old(ops);
      Add2Stored(old(cur), dl, dh, al, ah, bl, bh);
    }
  }

  /** What a double-width sum leaves in the store. */
  lemma Add2Stored(s: Store, dl: Var, dh: Var, al: Var, ah: Var, bl: Var, bh: Var)
    requires dl != dh && Width(dl) == Width(dh) == Width(al) == Width(ah) == Width(bl) == Width(bh)
    ensures var s' := Exec(Op.Add2(dl, dh, al, ah, bl, bh), s);
            && Get(s', dl) == LowSum(Get(s, al), Get(s, ah), Get(s, bl), Get(s, bh))
            && Get(s', dh) == HighSum(Get(s, al), Get(s, ah), Get(s, bl), Get(s, bh))
            && forall v: Var {:trigger Get(s', v)} :: v != dl && v != dh ==> Get(s', v) == Get(s, v)
  {
    hide LowSum, HighSum;
  }

  /** Only d differs. */
  ghost predicate Elsewhere(s: Store, s': Store, d: Var) {
    forall v: Var {:trigger Get(s', v)} :: v != d ==> Get(s', v) == Get(s, v)
  }

  function LowSum(al: Word, ah: Word, bl: Word, bh: Word): (r: Word)
    ensures |r| == |al|
  {
    FromNat(|al|, Sum2(al, ah, bl, bh))
  }

  function HighSum(al: Word, ah: Word, bl: Word, bh: Word): (r: Word)
    ensures |r| == |al|
  {
    FromNat(|al|, Upper(Sum2(al, ah, bl, bh), |al|))
  }
}
