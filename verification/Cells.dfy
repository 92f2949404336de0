/** The 16-bit words of the CoreMark cells and what the cell comparators compute from them. */
module Cells {
  import opened Bits
  import opened Crc

  datatype Option<+T> = None | Some(value: T)

  type W16 = w: Word | |w| == 16 witness Zero(16)

  /** The result fields that calc_func updates. */
  datatype Sums = Sums(crc: W16, crcstate: W16, crcmatrix: W16)

  /** The two benchmark kernels that calc_func may call, as functions of (dtype, crc). */
  datatype Kernels = Kernels(state: (W16, W16) -> W16, matrix: (W16, W16) -> W16)

  predicate Cached(d: W16) {
    d[7]
  }

  /** The 7-bit value held by a cached cell. */
  function Key(d: W16): W16 {
    And(d, Mask(16, 7))
  }

  function OpType(d: W16): nat {
    Val(And(d, Mask(16, 3)))
  }

  /** Bits 3-6 replicated to 8 bits. */
  function DType(d: W16): W16 {
    var x := And(Shr(d, 3), Mask(16, 4));
    Or(x, Shl(x, 4))
  }

  /** The uncached result of calc_func, before it is cut down to 7 bits. */
  function Raw(k: Kernels, d: W16, crc: W16): W16 {
    if OpType(d) == 0 then
      k.state(if Val(DType(d)) < 0x22 then FromNat(16, 0x22) else DType(d), crc)
    else if OpType(d) == 1 then k.matrix(DType(d), crc)
    else d
  }

  function Absorb(s: Sums, d: W16, raw: W16): Sums {
    Sums(Feed(s.crc, raw),
         if OpType(d) == 0 && s.crcstate == Zero(16) then raw else s.crcstate,
         if OpType(d) == 1 && s.crcmatrix == Zero(16) then raw else s.crcmatrix)
  }

  /** What the low three bits choose: the state kernel for 0, the matrix kernel for 1, handed bits 3 to
      6 as two equal nibbles, at least 0x22 for the state kernel; for 2 to 7 the word itself. */
  lemma RawByType(k: Kernels, d: W16, crc: W16)
    ensures var low, nibble := Val(d[..3]), Val(d[3..7]);
            && (low == 0 ==> Raw(k, d, crc) == k.state(FromNat(16, if nibble < 2 then 0x22 else 0x11 * nibble), crc))
            && (low == 1 ==> Raw(k, d, crc) == k.matrix(FromNat(16, 0x11 * nibble), crc))
            && (low >= 2 ==> Raw(k, d, crc) == d)
  {
    hide And, Or, Shl, Shr, Mask, FromNat;
    LowBits(d);
    Nibbles(d);
    FromNatVal(DType(d));
  }

  lemma LowBits(d: W16)
    ensures OpType(d) == Val(d[..3])
  {
    var x := And(d, Mask(16, 3));
    assert x == d[..3] + Zero(13);
    ValZeros(d[..3], 13);
  }

  lemma {:induction false} ValZeros(a: Word, n: nat)
    ensures Val(a + Zero(n)) == Val(a)
  {
    if a == [] {
      assert a + Zero(n) == Zero(n);
      ValZero(Zero(n));
    } else {
      ValZeros(a[1..], n);
      assert (a + Zero(n))[1..] == a[1..] + Zero(n);
    }
  }

  lemma ValTail(a: Word)
    requires |a| > 0
    ensures Val(a) == Bit(a[0]) + 2 * Val(a[1..])
  {
  }

  /** The lowest four bits of a value. */
  lemma LowNibble(a: Word)
    requires |a| >= 4
    ensures Val(a) == Bit(a[0]) + 2 * Bit(a[1]) + 4 * Bit(a[2]) + 8 * Bit(a[3]) + 16 * Val(a[4..])
  {
    hide Val, Bit;
    ValTail(a);
    ValTail(a[1..]);
    ValTail(a[2..]);
    ValTail(a[3..]);
    assert a[1..][1..] == a[2..] && a[2..][1..] == a[3..] && a[3..][1..] == a[4..];
  }

  lemma Nibbles(d: W16)
    ensures Val(DType(d)) == 0x11 * Val(d[3..7]) && Val(d[3..7]) < 16
  {
    var n := d[3..7];
    DTypeIs(d);
    ValZeros(n + n, 8);
    LowNibble(n);
    LowNibble(n + n);
    assert (n + n)[4..] == n && n[4..] == [];
    hide Val;
    ValZero([]);
  }

  lemma DTypeIs(d: W16)
    ensures DType(d) == (d[3..7] + d[3..7]) + Zero(8)
  {
  }

  /** A kernel matters only to the words of its type. */
  lemma OtherKernels(k: Kernels, k': Kernels, d: W16, crc: W16)
    ensures Val(d[..3]) == 0 && k.state == k'.state ==> Raw(k, d, crc) == Raw(k', d, crc)
    ensures Val(d[..3]) == 1 && k.matrix == k'.matrix ==> Raw(k, d, crc) == Raw(k', d, crc)
    ensures Val(d[..3]) >= 2 ==> Raw(k, d, crc) == Raw(k', d, crc)
  {
    hide Raw;
    RawByType(k, d, crc);
    RawByType(k', d, crc);
  }

  /** The first checksum of each kernel is kept, and only by words of its type. */
  lemma AbsorbByType(s: Sums, d: W16, raw: W16)
    ensures var s', low := Absorb(s, d, raw), Val(d[..3]);
            && s'.crc == Feed(s.crc, raw)
            && s'.crcstate == (if low == 0 && s.crcstate == Zero(16) then raw else s.crcstate)
            && s'.crcmatrix == (if low == 1 && s.crcmatrix == Zero(16) then raw else s.crcmatrix)
  {
    hide And, Mask, Feed;
    LowBits(d);
  }

  /** The cell word after its result has been cached: upper byte kept, bit 7 set. */
  function Cache(d: W16, raw: W16): (r: W16)
    ensures Cached(r) && r[8..] == d[8..] && r[..7] == raw[..7]
  {
    raw[..7] + [true] + d[8..]
  }

  /** The word rebuilt from its upper byte. */
  function Regen(d: W16): (r: W16)
    ensures r[8..] == d[8..]
  {
    d[8..] + d[8..]
  }

  lemma RegenUndoesCache(d: W16, r: W16)
    requires d[..8] == d[8..] && r[8..] == d[8..]
    ensures Regen(r) == d
  {
    assert d == d[..8] + d[8..];
  }
}
