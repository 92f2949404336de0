/** The tagged-table branch predictor (class tage of the CBP predictor). */
module Tage {
  import opened Bits
  import opened Modular
  import opened TageTable
  import opened Folding
  import opened History
  import opened Sequences

  /** (pc ^ a ^ b) cut to n bits: the table index and the tag of a branch. */
  function Hash(pc: Word, a: Word, b: Word, n: nat): (v: nat)
    requires |pc| == 64
  {
    Val(And(Xor(Xor(pc, Resize(a, 64)), Resize(b, 64)), Mask(64, n)))
  }

  lemma {:induction false} ValNarrow(a: Word, n: nat)
    requires forall k :: n <= k < |a| ==> !a[k]
    ensures Val(a) < Pow2(n)
  {
    if n == 0 {
      ValZero(a);
    } else if a != [] {
      forall k | n - 1 <= k < |a[1..]| ensures !a[1..][k] { assert a[1..][k] == a[k + 1]; }
      ValNarrow(a[1..], n - 1);
    }
  }

  lemma HashBound(pc: Word, a: Word, b: Word, n: nat)
    requires |pc| == 64
    ensures Hash(pc, a, b, n) < Pow2(n)
  {
    ValNarrow(And(Xor(Xor(pc, Resize(a, 64)), Resize(b, 64)), Mask(64, n)), n);
  }

  predicate At(w: Word, i: int) {
    0 <= i < |w| && w[i]
  }

  predicate BitOf(v: nat, i: nat) {
    Quotient(v, Pow2(i)) % 2 == 1
  }

  function Quotient(a: nat, b: nat): nat
    requires b >= 1
  {
    a / b
  }

  lemma {:induction false} ValBit(a: Word, i: nat)
    ensures BitOf(Val(a), i) <==> At(a, i)
  {
    if a == [] {
      QuotientSmall(Pow2(i));
    } else if i == 0 {
      assert Val(a) / 1 == Val(a);
    } else {
      ValBit(a[1..], i - 1);
      QuotientHalf(Val(a[1..]), Bit(a[0]), Pow2(i - 1));
    }
  }

  lemma QuotientSmall(p: nat)
    requires p >= 1
    ensures Quotient(0, p) == 0
  {
  }

  lemma QuotientHalf(v: nat, bit: nat, p: nat)
    requires bit <= 1 && p >= 1
    ensures Quotient(bit + 2 * v, 2 * p) == Quotient(v, p)
  {
    var q, r := v / p, v % p;
    assert v == q * p + r;
    assert q * (2 * p) == 2 * (q * p);
    DivModUnique(bit + 2 * v, 2 * p, q, 2 * r + bit);
  }

  /** Each bit of the hash is the XOR of one bit of each of the three words. */
  predicate HashBit(pc: Word, a: Word, b: Word, i: nat) {
    (At(pc, i) != At(a, i)) != At(b, i)
  }

  lemma HashBits(pc: Word, a: Word, b: Word, n: nat, i: nat)
    requires |pc| == 64
    ensures BitOf(Hash(pc, a, b, n), i) <==> i < n && i < 64 && HashBit(pc, a, b, i)
  {
    hide BitOf, Val;
    ValBit(And(Xor(Xor(pc, Resize(a, 64)), Resize(b, 64)), Mask(64, n)), i);
  }

  /** Two hashes agree exactly when they do bit by bit. */
  lemma HashesAgreeExactly(pc: Word, a: Word, b: Word, pc': Word, a': Word, b': Word, n: nat)
    requires |pc| == |pc'| == 64 && n <= 64
    ensures Hash(pc, a, b, n) == Hash(pc', a', b', n)
            <==> forall i :: 0 <= i < n ==> HashBit(pc, a, b, i) == HashBit(pc', a', b', i)
  {
    var x := And(Xor(Xor(pc, Resize(a, 64)), Resize(b, 64)), Mask(64, n));
    var y := And(Xor(Xor(pc', Resize(a', 64)), Resize(b', 64)), Mask(64, n));
    hide Val;
    forall i | 0 <= i < 64
      ensures x[i] == (i < n && HashBit(pc, a, b, i)) && y[i] == (i < n && HashBit(pc', a', b', i))
    {
    }
    if Val(x) == Val(y) { ValInjective(x, y); }
    if forall i :: 0 <= i < n ==> HashBit(pc, a, b, i) == HashBit(pc', a', b', i) {
      assert x == y;
    }
  }

  /** The low ctrbits bits of the two longest hitting counters, the bimodal counter standing in for
      missing ones, and whether the provider is useful. */
  ghost function PostpIndexOf(t: Table, gi: seq<nat>, hits: seq<nat>, bimodal: int, ctrbits: nat): int
    requires Indexed(t, gi) && HitList(t, hits)
  {
    var m := Pow2(ctrbits);
    var c0 := if |hits| > 0 then Get(t, gi, hits[0]).ctr else bimodal;
    var c1 := if |hits| > 1 then Get(t, gi, hits[1]).ctr else bimodal;
    LowPart(m, c1, c0, if |hits| == 0 || Get(t, gi, hits[0]).u > 0 then 1 else 0)
  }

  function LowPart(m: nat, c1: int, c0: int, u0: int): int
    requires m >= 1
  {
    2 * (m * (c1 % m) + c0 % m) + u0
  }

  /** The three counters shifted together, and the useful bit, cut to the size of the table. */
  function Packed(m: nat, top: int, c1: int, c0: int, u0: int): int
    requires m >= 1
  {
    (2 * (((top % m) * m + c1 % m) * m + c0 % m) + u0) % TableSize(m)
  }

  function TableSize(m: nat): (n: nat)
    requires m >= 1
    ensures n > 0
  {
    MulPositive(m, m);
    2 * (m * m)
  }

  lemma MulPositive(a: nat, b: nat)
    requires a >= 1 && b >= 1
    ensures a * b >= 1
  {
    assert a * b >= 1 * b;
  }

  /** The initial post-predictor entry: the sign of the first counter in the index. */
  function InitialPost(v: nat, ctrbits: nat): int
    requires ctrbits >= 1
  {
    0 - v / 2 / Pow2(ctrbits - 1) % 2
  }

  /** Zeros, and what the post-predictor starts with, are in range. */
  lemma InitialCounters(ctrbits: nat, nbits: nat)
    requires ctrbits >= 1 && nbits >= 1
    ensures CtrOk(0, ctrbits)
    ensures forall v: nat {:trigger InitialPost(v, ctrbits)} :: CtrOk(InitialPost(v, ctrbits), nbits)
  {
  }

  lemma ZeroTable(t: Table, tagbits: nat, ctrbits: nat)
    requires ctrbits >= 1 && forall i, j :: 0 <= i < |t| && 0 <= j < |t[i]| ==> t[i][j] == GEntry(0, 0, 0)
    ensures TableOk(t, tagbits, ctrbits)
  {
  }

  lemma SignOfCounter(h: nat, a: nat, c0: int, u0: nat)
    requires h >= 1 && 0 - h <= c0 < h && u0 <= 1
    ensures var v := 2 * (2 * h * a + c0 % (2 * h)) + u0;
            v >= 0 && v / 2 / h % 2 == if c0 >= 0 then 0 else 1
  {
    var b, low := c0 % (2 * h), if c0 >= 0 then c0 else c0 + h;
    SignedMod(c0, 2 * h);
    assert b == (if c0 >= 0 then 0 else h) + low;
    HighPart(h, a, if c0 >= 0 then 0 else 1, low);
  }

  /** k / h is 2a + bit when k is 2ha + h*bit + low. */
  lemma HighPart(h: nat, a: nat, bit: nat, low: nat)
    requires low < h && bit <= 1
    ensures var k := 2 * h * a + ((if bit == 0 then 0 else h) + low);
            k >= 0 && k / h == 2 * a + bit
  {
    EvenMultiple(h, a, bit);
    DivModUnique((2 * a + bit) * h + low, h, 2 * a + bit, low);
  }

  lemma EvenMultiple(h: nat, a: nat, bit: nat)
    requires bit <= 1
    ensures (2 * a + bit) * h == 2 * h * a + (if bit == 0 then 0 else h) && 2 * h * a >= 0
  {
    assert 2 * h * a == 2 * a * h;
  }

  lemma SignedMod(c: int, m: nat)
    requires m >= 1 && 0 - m <= c < m
    ensures c % m == if c >= 0 then c else c + m
  {
    var q := c / m;
    assert c == q * m + c % m;
    Multiples(q, m);
    assert c >= 0 ==> q == 0;
  }

  lemma Multiples(q: int, m: nat)
    requires m >= 1
    ensures q >= 0 ==> q * m >= 0
    ensures q >= 1 ==> q * m >= m
    ensures q == 0 ==> q * m == 0
    ensures q == -1 ==> q * m == 0 - m
    ensures q <= -1 ==> q * m <= 0 - m
    ensures q <= -2 ==> q * m <= 0 - 2 * m
  {
    if q >= 1 {
      MulAtLeast(q, m);
    } else if q <= -2 {
      MulAtLeast(-1 - q, m);
      assert (-1 - q) * m == 0 - m - q * m;
    }
  }

  /** A new post-predictor says what the provider says. */
  lemma InitialPostAgrees(t: Table, gi: seq<nat>, hits: seq<nat>, bimodal: int, ctrbits: nat, tagbits: nat)
    requires Indexed(t, gi) && HitList(t, hits) && ctrbits >= 1 && TableOk(t, tagbits, ctrbits)
             && CtrOk(bimodal, ctrbits)
    ensures var v := PostpIndexOf(t, gi, hits, bimodal, ctrbits);
            v >= 0 && (InitialPost(v, ctrbits) >= 0 <==> Direction(t, gi, hits, 0, bimodal))
  {
    var m, h := Pow2(ctrbits), Pow2(ctrbits - 1);
    var c0 := if |hits| > 0 then Get(t, gi, hits[0]).ctr else bimodal;
    var c1 := if |hits| > 1 then Get(t, gi, hits[1]).ctr else bimodal;
    var u0 := if |hits| == 0 || Get(t, gi, hits[0]).u > 0 then 1 else 0;
    if |hits| > 0 { assert EntryOk(Get(t, gi, hits[0]), tagbits, ctrbits); }
    SignOfCounter(h, c1 % m, c0, u0);
  }

  lemma {:induction false} Pow2Sum(a: nat, b: nat)
    ensures Pow2(a + b) == Pow2(a) * Pow2(b)
  {
    if a > 0 { Pow2Sum(a - 1, b); }
  }

  /** From the index the useful bit and the low bits of both counters can be read back, so two
      situations share an entry exactly when they agree in all three. */
  lemma PostpFields(t: Table, gi: seq<nat>, hits: seq<nat>, bimodal: int, ctrbits: nat)
    requires Indexed(t, gi) && HitList(t, hits)
    ensures var v, m := PostpIndexOf(t, gi, hits, bimodal, ctrbits), Pow2(ctrbits);
            && v >= 0
            && v % 2 == (if hits != [] && Get(t, gi, hits[0]).u <= 0 then 0 else 1)
            && v / 2 % m == (if hits == [] then bimodal else Get(t, gi, hits[0]).ctr) % m
            && v / 2 / m == (if |hits| < 2 then bimodal else Get(t, gi, hits[1]).ctr) % m
  {
    var m := Pow2(ctrbits);
    var c0 := if |hits| > 0 then Get(t, gi, hits[0]).ctr else bimodal;
    var c1 := if |hits| > 1 then Get(t, gi, hits[1]).ctr else bimodal;
    FieldsOf(m, c1 % m, c0 % m, if |hits| == 0 || Get(t, gi, hits[0]).u > 0 then 1 else 0);
  }

  lemma FieldsOf(m: nat, a: nat, c: nat, u: nat)
    requires m >= 1 && a < m && c < m && u <= 1
    ensures var v := 2 * (m * a + c) + u; v >= 0 && v % 2 == u && v / 2 % m == c && v / 2 / m == a
  {
    MulBound(a, c, m);
    assert m * a == a * m;
    DivModUnique(m * a + c, m, a, c);
  }

  /** The mask drops whatever the third counter was. */
  lemma MaskDropsTop(m: nat, top: int, c1: int, c0: int, u0: nat)
    requires m >= 1 && u0 <= 1
    ensures Packed(m, top, c1, c0, u0) == LowPart(m, c1, c0, u0)
    ensures 0 <= LowPart(m, c1, c0, u0) < TableSize(m)
  {
    var a, b, q := c1 % m, c0 % m, top % m;
    MulBound(a, b, m);
    assert 2 * ((q * m + a) * m + b) + u0 == q * (2 * (m * m)) + (2 * (m * a + b) + u0) by {
      assert (q * m + a) * m == q * m * m + a * m;
      assert q * (2 * (m * m)) == 2 * (q * m * m) by { Assoc(q, m); }
      assert a * m == m * a;
    }
    DivModUnique(2 * ((q * m + a) * m + b) + u0, 2 * (m * m), q, 2 * (m * a + b) + u0);
  }

  lemma Assoc(q: int, m: int)
    ensures q * (2 * (m * m)) == 2 * (q * m * m)
  {
    assert q * (m * m) == q * m * m;
  }

  lemma MulBound(a: nat, b: nat, m: nat)
    requires a < m && b < m
    ensures 0 <= m * a + b < m * m
  {
    assert m * a <= m * (m - 1);
    assert m * (m - 1) == m * m - m;
  }

  class Tage {
    const numg: nat
    const logb: nat
    const logg: nat
    const tagbits: nat
    const ctrbits: nat
    const postpbits: nat
    const rampup: int
    const caphist: int
    const b: array<int>          // tagless (bimodal) table
    const g: array2<GEntry>      // tagged tables
    const gi: array<nat>
    const postp: array<int>      // post-predictor
    var bi: nat
    var hit: seq<nat>
    var predtaken: bool
    var altpredtaken: bool
    var postpredtaken: bool
    var mispred: bool
    var ppi: nat
    var allocfail: int
    var nmisp: nat

    /** The tagged tables as a value. */
    ghost function Tab(): (t: Table)
      reads g
      ensures |t| == g.Length0 && forall i :: 0 <= i < |t| ==> |t[i]| == g.Length1
    {
      seq(g.Length0, i requires 0 <= i < g.Length0 reads g =>
        seq(g.Length1, j requires 0 <= j < g.Length1 reads g => g[i, j]))
    }

    ghost predicate Sized() {
      && numg > 1 && g.Length0 == gi.Length == numg
      && b.Length == Pow2(logb) && g.Length1 == Pow2(logg)
      && 1 <= ctrbits <= 8 && 1 <= postpbits <= 8 && tagbits <= 15
      && postp.Length == Pow2(2 * ctrbits + 1)
      && b != postp
    }

    ghost predicate CountersOk(a: array<int>, nbits: nat)
      requires nbits >= 1
      reads a
    {
      forall k :: 0 <= k < a.Length ==> CtrOk(a[k], nbits)
    }

    /** Every counter is in its range, every tag fits, and allocfail is between its bounds. */
    ghost predicate Valid()
      reads `allocfail, b, g, postp
    {
      && Sized()
      && TableOk(Tab(), tagbits, ctrbits) && CountersOk(b, ctrbits) && CountersOk(postp, postpbits)
      && 0 <= allocfail <= ALLOCFAILMAX
    }

    constructor (ng: nat, lb: nat, lg: nat, tagb: nat, ctrb: nat, ppb: nat, ru: int, caph: int)
      requires ng > 1 && lb < 30 && lg < 30    // ASSERT
      requires 1 <= ctrb <= 8 && 1 <= ppb <= 8 // ASSERT of ctrupdate
      requires tagb <= 15                      // the width of gentry::tag
      ensures Valid() && nmisp == 0 && fresh(b) && fresh(g) && fresh(gi) && fresh(postp)
      ensures numg == ng && logb == lb && logg == lg && tagbits == tagb && ctrbits == ctrb && rampup == ru
              && caphist == caph
      ensures allocfail == 0 && forall i, j :: 0 <= i < |Tab()| && 0 <= j < |Tab()[i]| ==>
                Tab()[i][j] == GEntry(0, 0, 0)
      ensures forall k :: 0 <= k < b.Length ==> b[k] == 0
      ensures forall v :: 0 <= v < postp.Length ==> postp[v] == InitialPost(v, ctrb)
    {
      numg, logb, logg, tagbits, ctrbits, postpbits, rampup, caphist := ng, lb, lg, tagb, ctrb, ppb, ru, caph;
      b := new int[Pow2(lb)](_ => 0);
      g := new GEntry[ng, Pow2(lg)]((_, _) => GEntry(0, 0, 0));
      gi := new nat[ng];
      postp := new int[Pow2(2 * ctrb + 1)](i => if i >= 0 then InitialPost(i, ctrb) else 0);
      hit, bi, ppi, allocfail, nmisp := [], 0, 0, 0, 0;
      predtaken, altpredtaken, postpredtaken, mispred := false, false, false, false;
      new;
      hide Pow2, CtrOk, TableOk, InitialPost;
      ZeroTable(Tab(), tagbits, ctrbits);
      InitialCounters(ctrbits, postpbits);
    }

    // ----- What a branch selects

    function Bindex(pc: Word): (v: nat)
      requires |pc| == 64 && b.Length == Pow2(logb)
      ensures v < b.Length
    {
      HashBound(pc, [], [], logb);
      Hash(pc, [], [], logb)
    }

    ghost predicate Fits(p: Subpath) {
      p.Widths() && p.numg == numg
    }

    function Gindex(pc: Word, p: Subpath, bank: nat): (v: nat)
      requires |pc| == 64 && Fits(p) && bank < numg
      reads p.chg[bank], p.chgg[bank]
      ensures v < Pow2(logg)
    {
      HashBound(pc, p.Cg(bank), p.Cgg(bank), logg);
      Hash(pc, p.Cg(bank), p.Cgg(bank), logg)
    }

    function Gtag(pc: Word, p: Subpath, bank: nat): (v: nat)
      requires |pc| == 64 && Fits(p) && bank < numg
      reads p.cht[bank], p.chtt[bank]
      ensures v < Pow2(tagbits)
    {
      HashBound(pc, p.Ct(bank), p.Ctt(bank), tagbits);
      Hash(pc, p.Ct(bank), p.Ctt(bank), tagbits)
    }

    /** Bit i of an index: of the address, of the first register, and of the second one shifted by
        the difference of the two register lengths. */
    lemma IndexBits(pc: Word, p: Subpath, bank: nat, i: nat)
      requires |pc| == 64 && p.Valid() && Fits(p) && bank < numg && i < 32
      ensures BitOf(Gindex(pc, p, bank), i) <==> i < logg && IndexBit(pc, p, bank, i)
    {
      hide Hash;
      HashBits(pc, p.Cg(bank), p.Cgg(bank), logg, i);
      p.ShiftedBits(bank, i);
    }

    predicate IndexBit(pc: Word, p: Subpath, bank: nat, i: nat)
      requires Fits(p) && bank < numg
      reads p.chg[bank], p.chgg[bank]
    {
      (At(pc, i) != At(p.chg[bank].comp, i))
      != At(p.chgg[bank].comp, i - (p.chg[bank].clength - p.chgg[bank].clength))
    }

    /** The same for a tag. */
    lemma TagBits(pc: Word, p: Subpath, bank: nat, i: nat)
      requires |pc| == 64 && p.Valid() && Fits(p) && bank < numg && i < 32
      ensures BitOf(Gtag(pc, p, bank), i) <==> i < tagbits && TagBit(pc, p, bank, i)
    {
      hide Hash;
      HashBits(pc, p.Ct(bank), p.Ctt(bank), tagbits, i);
      p.ShiftedBits(bank, i);
    }

    predicate TagBit(pc: Word, p: Subpath, bank: nat, i: nat)
      requires Fits(p) && bank < numg
      reads p.cht[bank], p.chtt[bank]
    {
      (At(pc, i) != At(p.cht[bank].comp, i))
      != At(p.chtt[bank].comp, i - (p.cht[bank].clength - p.chtt[bank].clength))
    }

    /** Two lookups in a bank compare the same tag exactly when these bits agree everywhere: one bit
        of the address or of a register that differs alone makes the tags differ. */
    lemma TagsAgreeExactly(pc: Word, p: Subpath, pc': Word, p': Subpath, bank: nat)
      requires |pc| == |pc'| == 64 && p.Valid() && Fits(p) && p'.Valid() && Fits(p') && bank < numg && tagbits <= 32
      ensures Gtag(pc, p, bank) == Gtag(pc', p', bank)
              <==> forall i: nat :: i < tagbits ==> TagBit(pc, p, bank, i) == TagBit(pc', p', bank, i)
    {
      hide Hash;
      HashesAgreeExactly(pc, p.Ct(bank), p.Ctt(bank), pc', p'.Ct(bank), p'.Ctt(bank), tagbits);
      forall i: nat | i < tagbits
        ensures TagBit(pc, p, bank, i) == HashBit(pc, p.Ct(bank), p.Ctt(bank), i)
        ensures TagBit(pc', p', bank, i) == HashBit(pc', p'.Ct(bank), p'.Ctt(bank), i)
      {
        p.ShiftedBits(bank, i);
        p'.ShiftedBits(bank, i);
      }
    }

    lemma IndicesAgreeExactly(pc: Word, p: Subpath, pc': Word, p': Subpath, bank: nat)
      requires |pc| == |pc'| == 64 && p.Valid() && Fits(p) && p'.Valid() && Fits(p') && bank < numg && logg <= 32
      ensures Gindex(pc, p, bank) == Gindex(pc', p', bank)
              <==> forall i: nat :: i < logg ==> IndexBit(pc, p, bank, i) == IndexBit(pc', p', bank, i)
    {
      hide Hash;
      HashesAgreeExactly(pc, p.Cg(bank), p.Cgg(bank), pc', p'.Cg(bank), p'.Cgg(bank), logg);
      forall i: nat | i < logg
        ensures IndexBit(pc, p, bank, i) == HashBit(pc, p.Cg(bank), p.Cgg(bank), i)
        ensures IndexBit(pc', p', bank, i) == HashBit(pc', p'.Cg(bank), p'.Cgg(bank), i)
      {
        p.ShiftedBits(bank, i);
        p'.ShiftedBits(bank, i);
      }
    }

    /** The bimodal index is the low bits of the address. */
    lemma BimodalBits(pc: Word, i: nat)
      requires |pc| == 64 && b.Length == Pow2(logb)
      ensures BitOf(Bindex(pc), i) <==> i < logb && At(pc, i)
    {
      hide Hash;
      HashBits(pc, [], [], logb, i);
    }

    ghost function Indices(pc: Word, p: Subpath): (s: seq<nat>)
      requires |pc| == 64 && Fits(p)
      reads p.Registers()
      ensures |s| == numg && forall i :: 0 <= i < numg ==> s[i] == Gindex(pc, p, i) < Pow2(logg)
    {
      seq(numg, i requires 0 <= i < numg reads p.Registers() => Gindex(pc, p, i))
    }

    ghost function Tags(pc: Word, p: Subpath): (s: seq<int>)
      requires |pc| == 64 && Fits(p)
      reads p.Registers()
      ensures |s| == numg && forall i :: 0 <= i < numg ==> s[i] == Gtag(pc, p, i) && 0 <= s[i] < Pow2(tagbits)
    {
      seq(numg, i requires 0 <= i < numg reads p.Registers() => Gtag(pc, p, i))
    }

    /** A prediction has been made, and hit lists banks of the table. */
    ghost predicate Selected()
      reads `hit, `bi, `ppi, g, gi
    {
      && Sized() && Indexed(Tab(), gi[..]) && HitList(Tab(), hit)
      && bi < b.Length && ppi < postp.Length
    }

    // ----- Access to the selected entries

    method Getg(i: nat) returns (e: GEntry)
      requires Selected() && i < numg
      ensures e == Get(Tab(), gi[..], i)
    {
      e := g[i, gi[i]];
    }

    method Setg(i: nat, e: GEntry)
      requires Selected() && i < numg
      modifies g
      ensures Tab() == Put(old(Tab()), gi[..], i, e) && Selected() && g[i, gi[i]] == e
    {
      g[i, gi[i]] := e;
      TableSame(Tab(), Put(old(Tab()), gi[..], i, e));
    }

    /** postp_index.  The third counter is read past the end of its array: whatever it is, the mask
        drops it. */
    method PostpIndex(junk: int) returns (v: nat)
      requires Selected()
      ensures v == PostpIndexOf(Tab(), gi[..], hit, b[bi], ctrbits) < postp.Length
    {
      hide Pow2, Packed, LowPart, TableSize;
      var m := Pow2(ctrbits);
      var c0, c1 := b[bi], b[bi];
      if |hit| > 0 { var e := Getg(hit[0]); c0 := e.ctr; }
      if |hit| > 1 { var e := Getg(hit[1]); c1 := e.ctr; }
      var u0 := 1;
      if |hit| > 0 { var e := Getg(hit[0]); u0 := if e.u > 0 then 1 else 0; }
      PostpSize();
      MaskDropsTop(m, junk, c1, c0, u0);
      v := Packed(m, junk, c1, c0, u0);
    }

    lemma PostpSize()
      requires Sized()
      ensures postp.Length == TableSize(Pow2(ctrbits))
    {
      Pow2Sum(ctrbits, ctrbits);
      assert 2 * ctrbits == ctrbits + ctrbits;
    }

    /** Look the branch up.  junk is what lies behind the array that postp_index reads past. */
    method CondbrPredict(pc: Word, p: Subpath, junk: int) returns (r: bool)
      requires Valid() && |pc| == 64 && Fits(p)
      modifies `bi, `hit, `predtaken, `altpredtaken, `ppi, `postpredtaken, gi
      ensures Valid() && Selected() && gi[..] == Indices(pc, p) && bi == Bindex(pc)
      ensures hit == Hits(Tab(), gi[..], Tags(pc, p), 0)
      ensures predtaken == Direction(Tab(), gi[..], hit, 0, b[bi])
      ensures altpredtaken == Direction(Tab(), gi[..], hit, 1, b[bi])
      ensures ppi == PostpIndexOf(Tab(), gi[..], hit, b[bi], ctrbits)
      ensures r == postpredtaken == (postp[ppi] >= 0)
    {
      hide Hash, PostpIndexOf, Pow2, Tab, Indices, Tags, Hits, TableOk, CountersOk, Direction;
      bi := Bindex(pc);
      ppi := 0;
      FillHits(pc, p);
      ghost var t, s, tags := Tab(), gi[..], Tags(pc, p);
      r := Decide(junk);
      assert gi[..] == s && Tags(pc, p) == tags && Tab() == t;
    }

    /** What the provider and the next longest hit say. */
    method Predictions()
      requires Selected()
      modifies `predtaken, `altpredtaken
      ensures predtaken == Direction(Tab(), gi[..], hit, 0, b[bi])
      ensures altpredtaken == Direction(Tab(), gi[..], hit, 1, b[bi])
    {
      hide Pow2, Tab, Ascending, Indexed;
      predtaken := b[bi] >= 0;
      altpredtaken := b[bi] >= 0;
      if |hit| > 0 { var e := Getg(hit[0]); predtaken := e.ctr >= 0; }
      if |hit| > 1 { var e := Getg(hit[1]); altpredtaken := e.ctr >= 0; }
    }

    /** The end of condbr_predict. */
    method Decide(junk: int) returns (r: bool)
      requires Selected()
      modifies `predtaken, `altpredtaken, `ppi, `postpredtaken
      ensures Selected()
      ensures predtaken == Direction(Tab(), gi[..], hit, 0, b[bi])
      ensures altpredtaken == Direction(Tab(), gi[..], hit, 1, b[bi])
      ensures ppi == PostpIndexOf(Tab(), gi[..], hit, b[bi], ctrbits)
      ensures r == postpredtaken == (postp[ppi] >= 0)
    {
      hide PostpIndexOf, Pow2, Tab, Ascending, Indexed, Direction;
      Predictions();
      ppi := PostpIndex(junk);
      postpredtaken := postp[ppi] >= 0;
      r := postpredtaken;
    }

    /** Select the entry of one bank and compare its tag. */
    method LookUp(i: nat, pc: Word, p: Subpath) returns (matches: bool)
      requires Sized() && |pc| == 64 && Fits(p) && i < numg
      modifies gi
      ensures gi[i] == Indices(pc, p)[i] && forall k :: 0 <= k < numg && k != i ==> gi[k] == old(gi[k])
      ensures Indexed(Tab(), Indices(pc, p)) && matches == (Get(Tab(), Indices(pc, p), i).tag == Tags(pc, p)[i])
    {
      hide Hash, Pow2, Indices, Tags;
      gi[i] := Gindex(pc, p, i);
      var tag := Gtag(pc, p, i);
      matches := g[i, gi[i]].tag == tag;
    }

    /** The loop of condbr_predict. */
    method FillHits(pc: Word, p: Subpath)
      requires Sized() && |pc| == 64 && Fits(p) && bi < b.Length && ppi < postp.Length
      modifies `hit, gi
      ensures Selected()
      ensures Indexed(Tab(), gi[..]) && gi[..] == Indices(pc, p)
      ensures HitList(Tab(), hit) && hit == Hits(Tab(), gi[..], Tags(pc, p), 0)
    {
      hide Hash, Pow2, Hits, Indices, Tags, Tab, Indexed, HitList;
      hit := [];
      ghost var t, s, tags := Tab(), Indices(pc, p), Tags(pc, p);
      IndicesInRange(pc, p);
      for i := 0 to numg
        invariant Tab() == t && Indices(pc, p) == s && Tags(pc, p) == tags && Indexed(t, s)
        invariant forall k :: 0 <= k < i ==> gi[k] == s[k]
        invariant hit + Hits(t, s, tags, i) == Hits(t, s, tags, 0)
      {
        var matches := LookUp(i, pc, p);
        HitsFrom(t, s, tags, i);
        if matches {
          assert hit + ([i] + Hits(t, s, tags, i + 1)) == (hit + [i]) + Hits(t, s, tags, i + 1);
          hit := hit + [i];
        }
      }
      assert gi[..] == s;
      HitsEnd(t, s, tags);
      assert hit == Hits(t, s, tags, 0);
      HitsAreBanks(t, s, tags);
    }

    lemma IndicesInRange(pc: Word, p: Subpath)
      requires Sized() && |pc| == 64 && Fits(p)
      ensures Indexed(Tab(), Indices(pc, p))
    {
      hide Hash, Pow2;
    }

    lemma HitsAreBanks(t: Table, s: seq<nat>, tags: seq<int>)
      requires Indexed(t, s) && |tags| == |t|
      ensures HitList(t, Hits(t, s, tags, 0))
    {
      hide Ascending, Indexed;
      HitsAreMatches(t, s, tags, 0);
      var hits := Hits(t, s, tags, 0);
      forall k | 0 <= k < |hits| ensures hits[k] < |t| { assert hits[k] in hits; }
    }

    // ----- Updates

    method CtrUpdate(c: int, inc: bool, nbits: nat) returns (c': int, sat: bool)
      requires 1 <= nbits <= 8   // ASSERT
      ensures c' == Counted(c, inc, nbits) && sat == StaysSaturated(c, inc, nbits)
      ensures c' == if inc && c < Pow2(nbits - 1) - 1 then c + 1
                    else if !inc && c > 0 - Pow2(nbits - 1) then c - 1
                    else c
      ensures sat <==> var ends := {Pow2(nbits - 1) - 1, 0 - Pow2(nbits - 1)}; c in ends && c' in ends
    {
      var ctrmin := 0 - Pow2(nbits - 1);
      var ctrmax := -ctrmin - 1;
      var issat := c == ctrmax || c == ctrmin;
      c' := c;
      if inc {
        if c' < ctrmax { c' := c' + 1; }
      } else {
        if c' > ctrmin { c' := c' - 1; }
      }
      sat := issat && (c' == ctrmax || c' == ctrmin);
    }

    method Uclear()
      requires Sized()
      modifies g
      ensures Tab() == Cleared(old(Tab()))
      ensures forall i, j :: 0 <= i < numg && 0 <= j < g.Length1 ==>
                var e := old(g[i, j]); g[i, j] == if e.u != 0 then GEntry(e.tag, e.ctr, e.u - 1) else e
    {
      hide Pow2;
      ghost var t := Tab();
      for i := 0 to numg
        invariant forall k, j :: 0 <= k < i && 0 <= j < g.Length1 ==> g[k, j] == Cleared(t)[k][j]
        invariant forall k, j :: i <= k < numg && 0 <= j < g.Length1 ==> g[k, j] == t[k][j]
      {
        for j := 0 to g.Length1
          invariant forall k, l :: 0 <= k < i && 0 <= l < g.Length1 ==> g[k, l] == Cleared(t)[k][l]
          invariant forall l :: 0 <= l < j ==> g[i, l] == Cleared(t)[i][l]
          invariant forall l :: j <= l < g.Length1 ==> g[i, l] == t[i][l]
          invariant forall k, l :: i < k < numg && 0 <= l < g.Length1 ==> g[k, l] == t[k][l]
        {
          if g[i, j].u != 0 {
            g[i, j] := g[i, j].(u := g[i, j].u - 1);
          }
        }
      }
      TableSame(Tab(), Cleared(t));
    }

    method Galloc(i: nat, pc: Word, taken: bool, p: Subpath)
      requires Selected() && i < numg && |pc| == 64 && Fits(p)
      modifies g
      ensures Selected() && Tab() == Put(old(Tab()), gi[..], i, Fresh(Gtag(pc, p, i), taken))
      ensures g[i, gi[i]] == GEntry(Gtag(pc, p, i), if taken then 0 else -1, 0)
    {
      hide Pow2, Hash;
      var e := Getg(i);
      e := e.(tag := Gtag(pc, p, i));
      e := e.(ctr := if taken then 0 else -1);
      e := e.(u := 0);
      Setg(i, e);
    }

    method TrainBimodal(taken: bool) returns (sat: bool)
      requires Selected()
      modifies b
      ensures b[..] == old(b[..])[bi := Counted(old(b[bi]), taken, ctrbits)]
      ensures sat == StaysSaturated(old(b[bi]), taken, ctrbits)
    {
      hide Pow2, Counted, StaysSaturated;
      var c;
      c, sat := CtrUpdate(b[bi], taken, ctrbits);
      b[bi] := c;
    }

    /** The first n hits have been trained since the table was t; nothing else has changed. */
    ghost predicate Trained(t: Table, tags: seq<int>, taken: bool, n: nat)
      requires 1 <= ctrbits
      reads `hit, `bi, `ppi, g, gi
    {
      && Selected() && Indexed(t, gi[..]) && |tags| == |t| == numg && n <= |hit|
      && Tab() == Settled(t, gi[..], tags, taken, Range(hit, n), [], 0, ctrbits)
    }

    /** Train hit number n. */
    method TrainHit(n: nat, taken: bool, ghost t: Table, ghost tags: seq<int>) returns (sat: bool)
      requires 1 <= ctrbits <= 8 && n < |hit| && Trained(t, tags, taken, n)
      modifies g
      ensures Trained(t, tags, taken, n + 1)
      ensures sat == StaysSaturated(Get(t, gi[..], hit[n]).ctr, taken, ctrbits)
    {
      hide Pow2, Counted, StaysSaturated, Settled, Put;
      var e := Getg(hit[n]);
      var c;
      c, sat := CtrUpdate(e.ctr, taken, ctrbits);
      SettledTrain(t, gi[..], tags, taken, Range(hit, n), ctrbits, hit[n]);
      assert Range(hit, n + 1) == Range(hit, n) + {hit[n]};
      Setg(hit[n], e.(ctr := c));
    }

    lemma UsefulKept(t: Table, tags: seq<int>, taken: bool, n: nat)
      requires Sized() && Trained(t, tags, taken, n) && TableOk(t, tagbits, ctrbits)
      ensures Selected() && HitList(t, hit)
      ensures forall i :: 0 <= i < numg ==> Get(Tab(), gi[..], i).u == Get(t, gi[..], i).u
    {
      hide Pow2, Counted, Ascending;
      forall i | 0 <= i < numg ensures Get(Tab(), gi[..], i).u == Get(t, gi[..], i).u {
        assert EntryOk(Get(t, gi[..], i), tagbits, ctrbits);
      }
    }

    /** The first half of careful_update. */
    method CarefulTrain(taken: bool, ghost t: Table, ghost tags: seq<int>)
      requires Valid() && Trained(t, tags, taken, 0) && TableOk(t, tagbits, ctrbits)
      modifies g, b
      ensures Trained(t, tags, taken, CarefulDepth(t, gi[..], hit))
      ensures b[..] == if CarefulBimodal(t, gi[..], hit)
              then old(b[..])[bi := Counted(old(b[bi]), taken, ctrbits)] else old(b[..])
      ensures hit == [] || (|hit| == 1 && Get(t, gi[..], hit[0]).u == 0) <==> CarefulBimodal(t, gi[..], hit)
    {
      hide Pow2, Counted, StaysSaturated, Trained, Ascending, TableOk, CountersOk, Tab;
      UsefulKept(t, tags, taken, 0);
      if |hit| > 0 {
        var sat := TrainHit(0, taken, t, tags);
        UsefulKept(t, tags, taken, 1);
        var e := Getg(hit[0]);
        if e.u == 0 {
          if |hit| > 1 {
            sat := TrainHit(1, taken, t, tags);
          } else {
            sat := TrainBimodal(taken);
          }
        }
      } else {
        var sat := TrainBimodal(taken);
      }
    }

    /** The table is t after training the first n hits, allocating and clearing. */
    ghost predicate Updated(t: Table, tags: seq<int>, taken: bool, n: nat, alloc: seq<nat>, clears: nat)
      requires 1 <= ctrbits
      reads `hit, `bi, `ppi, g, gi
    {
      && Selected() && Indexed(t, gi[..]) && |tags| == |t| == numg && n <= |hit|
      && Tab() == Settled(t, gi[..], tags, taken, Range(hit, n), alloc, clears, ctrbits)
    }

    lemma UpdatedShape(t: Table, tags: seq<int>, taken: bool, n: nat, alloc: seq<nat>, clears: nat)
      requires 1 <= ctrbits && Updated(t, tags, taken, n, alloc, clears)
      ensures Selected() && Indexed(t, gi[..]) && |t| == numg && Provider(hit, numg) <= numg
    {
      hide Settled;
    }

    lemma NothingUpdated(t: Table, tags: seq<int>, taken: bool)
      requires Valid() && Selected() && t == Tab() && |tags| == numg
      ensures Trained(t, tags, taken, 0)
    {
      assert Range(hit, 0) == {};
      SettledNothing(t, gi[..], tags, taken, tagbits, ctrbits);
    }

    /** What bank k's useful counter is once the table has been cleared so many times. */
    lemma UsefulNow(t: Table, tags: seq<int>, taken: bool, n: nat, alloc: seq<nat>, clears: nat, k: nat)
      requires 1 <= ctrbits && Updated(t, tags, taken, n, alloc, clears) && k < numg && k !in alloc
      ensures Selected() && Indexed(t, gi[..]) && Get(Tab(), gi[..], k).u == Lowered(Usefuls(t, gi[..])[k], clears)
    {
      hide Counted, Lowered;
    }

    method AllocateOne(k: nat, pc: Word, taken: bool, p: Subpath, ghost t: Table, ghost tags: seq<int>, ghost n: nat,
            ghost alloc: seq<nat>, ghost clears: nat)
      requires 1 <= ctrbits && Updated(t, tags, taken, n, alloc, clears) && k < numg && k !in alloc
      requires |pc| == 64 && Fits(p) && tags[k] == Gtag(pc, p, k)
      modifies g
      ensures Updated(t, tags, taken, n, alloc + [k], clears)
    {
      hide Hash, Pow2, Counted, Settled, Put, Fresh;
      SettledAlloc(t, gi[..], tags, taken, Range(hit, n), alloc, clears, ctrbits, k);
      Galloc(k, pc, taken, p);
    }

    method ClearOnce(taken: bool, ghost t: Table, ghost tags: seq<int>, ghost n: nat, ghost alloc: seq<nat>,
            ghost clears: nat)
      requires 1 <= ctrbits && Updated(t, tags, taken, n, alloc, clears)
      modifies g
      ensures Updated(t, tags, taken, n, alloc, clears + 1)
    {
      hide Hash, Pow2, Counted, Settled, Cleared;
      SettledClear(t, gi[..], tags, taken, Range(hit, n), alloc, clears, ctrbits);
      Uclear();
      assert Selected();
    }

    /** One turn of the walk: steal the entry of bank i, or count a failure. */
    method StealOne(i: nat, pc: Word, taken: bool, p: Subpath, ghost t: Table, ghost tags: seq<int>, ghost n: nat,
            ghost alloc: seq<nat>, ghost clears: nat)
      returns (stolen: bool, ghost alloc': seq<nat>, ghost clears': nat)
      requires 1 <= ctrbits && 0 <= allocfail <= ALLOCFAILMAX && i < numg && |pc| == 64 && Fits(p)
      requires tags == Tags(pc, p) && Updated(t, tags, taken, n, alloc, clears) && i !in alloc && Indexed(t, gi[..])
      modifies g, `allocfail
      ensures Updated(t, tags, taken, n, alloc', clears')
      ensures stolen <==> Lowered(Usefuls(t, gi[..])[i], clears) == 0
      ensures stolen ==> alloc' == alloc + [i] && clears' == clears
                         && allocfail == if old(allocfail) > 0 then old(allocfail) - 1 else old(allocfail)
      ensures !stolen ==> alloc' == alloc && clears' == (if allocfail == ALLOCFAILMAX then clears + 1 else clears)
                          && allocfail == if old(allocfail) < ALLOCFAILMAX then old(allocfail) + 1 else old(allocfail)
    {
      hide Updated, Tags, Hash, Pow2, Lowered, Tab, Ascending;
      UsefulNow(t, tags, taken, n, alloc, clears, i);
      alloc', clears' := alloc, clears;
      var e := Getg(i);
      stolen := e.u == 0;
      if e.u == 0 {
        AllocateOne(i, pc, taken, p, t, tags, n, alloc, clears);
        alloc' := alloc + [i];
        if allocfail > 0 { allocfail := allocfail - 1; }
      } else {
        if allocfail < ALLOCFAILMAX { allocfail := allocfail + 1; }
        if allocfail == ALLOCFAILMAX {
          ClearOnce(taken, t, tags, n, alloc, clears);
          clears' := clears + 1;
        }
      }
    }

    /** The second half of careful_update, run on a misprediction. */
    method StealEntries(pc: Word, taken: bool, p: Subpath, ghost t: Table, ghost tags: seq<int>, ghost n: nat)
      returns (ghost alloc: seq<nat>, ghost clears: nat)
      requires 1 <= ctrbits && 0 <= allocfail <= ALLOCFAILMAX && |pc| == 64 && Fits(p)
      requires tags == Tags(pc, p) && Updated(t, tags, taken, n, [], 0)
      modifies g, `allocfail
      ensures Updated(t, tags, taken, n, alloc, clears)
      ensures Stolen(alloc, allocfail, clears) == Steal(Usefuls(t, gi[..]), Provider(hit, numg), 0, old(allocfail), 0)
    {
      hide Updated, Tags, Hash, Pow2, Lowered, Tab, Steal, Ascending, Indexed, Usefuls;
      UpdatedShape(t, tags, taken, n, [], 0);
      ghost var us, s := Usefuls(t, gi[..]), gi[..];
      ghost var whole := Steal(us, Provider(hit, numg), 0, allocfail, 0);
      alloc, clears := [], 0;
      var nalloc := 0;
      var i: int := if |hit| > 0 then hit[0] else numg;
      i := i - 1;
      while i >= 0
        invariant -2 <= i < numg && nalloc < MAXALLOC && 0 <= allocfail <= ALLOCFAILMAX
        invariant Updated(t, tags, taken, n, alloc, clears) && gi[..] == s && tags == Tags(pc, p)
        invariant forall a :: a in alloc ==> a > i
        invariant Onward(alloc, Steal(us, i + 1, nalloc, allocfail, clears)) == whole
      {
        StealStep(us, i, nalloc, allocfail, clears, alloc);
        var stolen;
        stolen, alloc, clears := StealOne(i, pc, taken, p, t, tags, n, alloc, clears);
        if stolen {
          i := i - 1;
          nalloc := nalloc + 1;
          if nalloc == MAXALLOC {
            break;
          }
        }
        i := i - 1;
      }
      if nalloc < MAXALLOC { StealEnd(us, i + 1, nalloc, allocfail, clears, alloc); }
    }

    /** The update policy of ISL-TAGE. */
    method CarefulUpdate(pc: Word, taken: bool, p: Subpath, ghost t: Table, ghost tags: seq<int>)
      returns (ghost alloc: seq<nat>, ghost clears: nat)
      requires Valid() && Selected() && t == Tab() && |pc| == 64 && Fits(p) && tags == Tags(pc, p)
      modifies g, b, `allocfail
      ensures Updated(t, tags, taken, CarefulDepth(t, gi[..], hit), alloc, clears)
      ensures Stolen(alloc, allocfail, clears) ==
              if mispred then Steal(Usefuls(t, gi[..]), Provider(hit, numg), 0, old(allocfail), 0)
                else Stolen([], old(allocfail), 0)
      ensures b[..] == if CarefulBimodal(t, gi[..], hit)
              then old(b[..])[bi := Counted(old(b[bi]), taken, ctrbits)] else old(b[..])
    {
      hide Tags, Hash, Pow2, Tab, Steal, Ascending, Counted, TableOk, CountersOk, Settled, CarefulDepth, CarefulBimodal;
      NothingUpdated(t, tags, taken);
      CarefulTrain(taken, t, tags);
      ghost var n, s := CarefulDepth(t, gi[..], hit), b[..];
      assert Updated(t, tags, taken, n, [], 0);
      alloc, clears := [], 0;
      if mispred {
        assert Tags(pc, p) == tags;
        alloc, clears := StealEntries(pc, taken, p, t, tags, n);
        assert b[..] == s;
      }
    }

    /** Hits not yet trained still say what they said. */
    lemma SaysKept(t: Table, tags: seq<int>, taken: bool, n: nat)
      requires Sized() && Trained(t, tags, taken, n)
      ensures Selected() && Indexed(t, gi[..]) && HitList(t, hit)
      ensures forall k :: n <= k < |hit| ==> Says(Tab(), gi[..], hit[k]) == Says(t, gi[..], hit[k])
    {
      hide Pow2, Counted;
      forall k | n <= k < |hit| ensures hit[k] !in Range(hit, n) {
      }
    }

    /** Train the hits from start on up to the first that disagrees with the provider. */
    method AgreeingTrain(start: nat, inter: bool, taken: bool, ghost t: Table, ghost tags: seq<int>)
      returns (sat: bool, done: bool, ghost n: nat)
      requires Sized() && 1 <= start <= |hit| && Trained(t, tags, taken, start)
      requires inter == Says(t, gi[..], hit[0])
      modifies g
      ensures Selected() && Indexed(t, gi[..]) && HitList(t, hit) && n == AgreeDepth(t, gi[..], hit, start)
              && (done <==> n < |hit|)
      ensures Trained(t, tags, taken, n)
      ensures sat == StaySaturated(t, gi[..], hit, start, n, taken, ctrbits)
    {
      hide Pow2, Counted, StaysSaturated, Trained, Ascending, Tab, Says;
      SaysKept(t, tags, taken, start);
      sat, done, n := true, false, start;
      ghost var s := gi[..];
      for i := start to |hit|
        invariant gi[..] == s && !done && n == i && Trained(t, tags, taken, i) && Indexed(t, s) && HitList(t, hit)
        invariant AgreeDepth(t, s, hit, start) == AgreeDepth(t, s, hit, i)
        invariant sat == StaySaturated(t, s, hit, start, i, taken, ctrbits)
      {
        AgreeNext(t, s, hit, i);
        SaysKept(t, tags, taken, i);
        var dir := Direct(i);
        if dir == inter {
          var one := TrainHit(i, taken, t, tags);
          sat := sat && one;
          n := i + 1;
        } else {
          done := true;
          break;
        }
      }
    }

    method Direct(k: nat) returns (d: bool)
      requires Selected() && k < |hit|
      ensures d == Says(Tab(), gi[..], hit[k])
    {
      var e := Getg(hit[k]);
      d := e.ctr >= 0;
    }

    /** Train the second hit or the bimodal counter, which the provider is not yet useful beside. */
    method SecondTrain(taken: bool, inter: bool, ghost t: Table, ghost tags: seq<int>)
      returns (sat: bool, start: nat, done: bool, stop: bool)
      requires Sized() && |hit| > 0 && Trained(t, tags, taken, 1) && TableOk(t, tagbits, ctrbits)
      requires inter == Says(t, gi[..], hit[0])
      modifies g, b
      ensures Selected() && Indexed(t, gi[..]) && HitList(t, hit)
      ensures Get(t, gi[..], hit[0]).u != 0 ==> start == 1 && !done && !stop && sat
      ensures Get(t, gi[..], hit[0]).u == 0 && |hit| > 1 ==>
                start == 2 && !done && stop == (Says(t, gi[..], hit[1]) != inter)
                && sat == StaysSaturated(Get(t, gi[..], hit[1]).ctr, taken, ctrbits)
      ensures Get(t, gi[..], hit[0]).u == 0 && |hit| == 1 ==>
                start == 1 && done && !stop && sat == StaysSaturated(old(b[bi]), taken, ctrbits)
      ensures Trained(t, tags, taken, start)
      ensures b[..] == if done then old(b[..])[bi := Counted(old(b[bi]), taken, ctrbits)] else old(b[..])
    {
      hide Pow2, Counted, StaysSaturated, Trained, Ascending, TableOk, CountersOk, Tab, Says;
      UsefulKept(t, tags, taken, 1);
      SaysKept(t, tags, taken, 1);
      sat, start, done, stop := true, 1, false, false;
      var e := Getg(hit[0]);
      if e.u == 0 {
        if |hit| > 1 {
          var dir := Direct(1);
          if dir != inter { stop := true; }
          start := 2;
          sat := TrainHit(1, taken, t, tags);
        } else {
          done := true;
          sat := TrainBimodal(taken);
        }
      }
    }

    /** The same unless training has been stopped. */
    method FurtherTrain(stop: bool, start: nat, inter: bool, taken: bool, ghost t: Table, ghost tags: seq<int>)
      returns (sat: bool, done: bool, ghost n: nat)
      requires Sized() && 1 <= start <= |hit| && Trained(t, tags, taken, start)
      requires inter == Says(t, gi[..], hit[0])
      modifies g
      ensures Selected() && Indexed(t, gi[..]) && HitList(t, hit)
      ensures n == (if stop then start else AgreeDepth(t, gi[..], hit, start)) && (done <==> !stop && n < |hit|)
      ensures Trained(t, tags, taken, n)
      ensures sat == StaySaturated(t, gi[..], hit, start, n, taken, ctrbits)
    {
      hide Pow2, StaysSaturated, Trained, Ascending, Tab, Says;
      SaysKept(t, tags, taken, start);
      sat, done, n := true, false, start;
      if !stop {
        sat, done, n := AgreeingTrain(start, inter, taken, t, tags);
      }
    }

    /** The bimodal counter, unless it is done with or disagrees with the provider. */
    method LastTrain(done: bool, inter: bool, taken: bool) returns (sat: bool)
      requires Selected()
      modifies b
      ensures var last := !done && (old(b[bi]) >= 0) == inter;
              && b[..] == (if last then old(b[..])[bi := Counted(old(b[bi]), taken, ctrbits)] else old(b[..]))
              && sat == (last ==> StaysSaturated(old(b[bi]), taken, ctrbits))
    {
      hide Pow2, Counted, StaysSaturated, Ascending, Indexed, Tab;
      sat := true;
      if !done && (b[bi] >= 0) == inter {
        sat := TrainBimodal(taken);
      }
    }

    /** What the parts of aggressive training add up to when the first hit is a provider. */
    lemma AggressiveParts(t: Table, s: seq<nat>, bimodal: int, start: nat, n: nat, done: bool, stop: bool, taken: bool)
      requires Indexed(t, s) && HitList(t, hit) && |hit| > 0 && ctrbits >= 1 && 1 <= start <= |hit|
      requires var u, inter := Get(t, s, hit[0]).u, Says(t, s, hit[0]);
               && start == (if u == 0 && |hit| > 1 then 2 else 1)
               && done == (u == 0 && |hit| == 1)
               && stop == (u == 0 && |hit| > 1 && Says(t, s, hit[1]) != inter)
               && n == (if stop then start else AgreeDepth(t, s, hit, start))
      ensures n == AggressiveDepth(t, s, hit)
      ensures var last := !(done || (!stop && n < |hit|)) && (bimodal >= 0) == Says(t, s, hit[0]);
              AggressiveBimodal(t, s, hit, bimodal) <==> done || last
    {
      hide Says, Ascending;
      AgreeNext(t, s, hit, 1);
    }

    lemma SaturatedParts(t: Table, s: seq<nat>, n: nat, start: nat, bimodal: int, last: bool, taken: bool)
      requires Indexed(t, s) && HitList(t, hit) && 1 <= start <= n <= |hit| && ctrbits >= 1 && start <= 2
      ensures AllSaturated(t, s, hit, n, bimodal, last, taken, ctrbits)
              <==> && StaysSaturated(Get(t, s, hit[0]).ctr, taken, ctrbits)
                   && (start == 2 ==> StaysSaturated(Get(t, s, hit[1]).ctr, taken, ctrbits))
                   && StaySaturated(t, s, hit, start, n, taken, ctrbits)
                   && (last ==> StaysSaturated(bimodal, taken, ctrbits))
    {
      hide StaysSaturated, StaySaturated, Ascending;
      StaySaturatedOnto(t, s, hit, 0, 1, taken, ctrbits);
      if start == 2 { StaySaturatedOnto(t, s, hit, 1, 2, taken, ctrbits); }
      StaySaturatedOnto(t, s, hit, start, n, taken, ctrbits);
    }

    /** The hits of aggressive training; first says that the bimodal counter stood in for the second. */
    method HitsTrain(taken: bool, ghost t: Table, ghost tags: seq<int>)
      returns (allsat: bool, inter: bool, done: bool, ghost first: bool)
      requires Valid() && |hit| > 0 && Trained(t, tags, taken, 0) && TableOk(t, tagbits, ctrbits)
      modifies g, b
      ensures Trained(t, tags, taken, AggressiveDepth(t, gi[..], hit))
      ensures (first ==> done)
              && (AggressiveBimodal(t, gi[..], hit, old(b[bi])) <==> first || (!done && (old(b[bi]) >= 0) == inter))
      ensures b[..] == if first then old(b[..])[bi := Counted(old(b[bi]), taken, ctrbits)] else old(b[..])
      ensures allsat == AllSaturated(t, gi[..], hit, AggressiveDepth(t, gi[..], hit), old(b[bi]), first, taken, ctrbits)
    {
      hide Pow2, Counted, StaysSaturated, Trained, Ascending, TableOk, CountersOk, Tab, Says, StaySaturated, AgreeDepth,
           Indexed, AggressiveDepth, AggressiveBimodal, AllSaturated;
      SaysKept(t, tags, taken, 0);
      ghost var s, b0 := gi[..], b[bi];
      inter := Direct(0);
      allsat := TrainHit(0, taken, t, tags);
      var sat, start, stop;
      sat, start, done, stop := SecondTrain(taken, inter, t, tags);
      allsat := allsat && sat;
      first := done;
      ghost var n;
      var further;
      sat, further, n := FurtherTrain(stop, start, inter, taken, t, tags);
      AggressiveParts(t, s, b0, start, n, first, stop, taken);
      SaturatedParts(t, s, n, start, b0, first, taken);
      done := done || further;
      allsat := allsat && sat;
    }

    /** The first half of aggressive_update when there is a hit. */
    method HitTrain(taken: bool, ghost t: Table, ghost tags: seq<int>) returns (allsat: bool)
      requires Valid() && |hit| > 0 && Trained(t, tags, taken, 0) && TableOk(t, tagbits, ctrbits)
      modifies g, b
      ensures Trained(t, tags, taken, AggressiveDepth(t, gi[..], hit))
      ensures b[..] == if AggressiveBimodal(t, gi[..], hit, old(b[bi]))
              then old(b[..])[bi := Counted(old(b[bi]), taken, ctrbits)] else old(b[..])
      ensures allsat == AllSaturated(t, gi[..], hit, AggressiveDepth(t, gi[..], hit), old(b[bi]),
                                     AggressiveBimodal(t, gi[..], hit, old(b[bi])), taken, ctrbits)
    {
      hide Pow2, Counted, StaysSaturated, Ascending, TableOk, CountersOk, Tab, StaySaturated, Indexed, AggressiveDepth,
           AggressiveBimodal, Settled;
      var inter, done;
      ghost var first;
      allsat, inter, done, first := HitsTrain(taken, t, tags);
      var sat := LastTrain(done, inter, taken);
      allsat := allsat && sat;
    }

    /** The first half of aggressive_update. */
    method AggressiveTrain(taken: bool, ghost t: Table, ghost tags: seq<int>) returns (allsat: bool)
      requires Valid() && Trained(t, tags, taken, 0) && TableOk(t, tagbits, ctrbits)
      modifies g, b
      ensures Trained(t, tags, taken, AggressiveDepth(t, gi[..], hit))
      ensures b[..] == if AggressiveBimodal(t, gi[..], hit, old(b[bi]))
              then old(b[..])[bi := Counted(old(b[bi]), taken, ctrbits)] else old(b[..])
      ensures allsat == AllSaturated(t, gi[..], hit, AggressiveDepth(t, gi[..], hit), old(b[bi]),
                                     AggressiveBimodal(t, gi[..], hit, old(b[bi])), taken, ctrbits)
    {
      hide Pow2, Counted, StaysSaturated, Trained, Ascending, TableOk, CountersOk, Tab, Says, StaySaturated, AgreeDepth,
           Indexed;
      SaysKept(t, tags, taken, 0);
      allsat := true;
      if |hit| > 0 {
        allsat := HitTrain(taken, t, tags);
      } else {
        var sat := TrainBimodal(taken);
        StaySaturatedOnto(t, gi[..], hit, 0, 0, taken, ctrbits);
      }
    }

    /** Banks in which aggressive_update may allocate. */
    ghost function Allowed(p: Subpath, allsat: bool): (s: seq<bool>)
      requires Fits(p)
      ensures |s| == numg
    {
      seq(numg, i requires 0 <= i < numg => !allsat || p.chg[i].olength <= caphist)
    }

    /** Allocate in bank i if it is free and allowed. */
    method AllocateAt(i: nat, pc: Word, taken: bool, p: Subpath, allsat: bool, ghost t: Table, ghost tags: seq<int>,
            ghost n: nat, ghost alloc: seq<nat>)
      returns (ghost alloc': seq<nat>)
      requires Sized() && |pc| == 64 && Fits(p) && TableOk(t, tagbits, ctrbits) && i < numg
      requires tags == Tags(pc, p) && Updated(t, tags, taken, n, alloc, 0) && i !in alloc && Indexed(t, gi[..])
      modifies g
      ensures Updated(t, tags, taken, n, alloc', 0)
      ensures alloc' == if Usefuls(t, gi[..])[i] == 0 && Allowed(p, allsat)[i] then alloc + [i] else alloc
    {
      hide Updated, Tags, Hash, Pow2, Tab, Ascending, TableOk;
      UsefulNow(t, tags, taken, n, alloc, 0, i);
      NotNegative(t, i);
      alloc' := alloc;
      var e := Getg(i);
      if e.u == 0 && (!allsat || p.chg[i].olength <= caphist) {
        AllocateOne(i, pc, taken, p, t, tags, n, alloc, 0);
        alloc' := alloc + [i];
      }
    }

    /** What the second half allocates, bank by bank. */
    lemma AllocatedExactly(alloc: seq<nat>, t: Table, s: seq<nat>, provider: nat, p: Subpath, allsat: bool, k: nat)
      requires Indexed(t, s) && |t| == numg && provider <= numg && Fits(p)
      requires AllFree(alloc, Usefuls(t, s), provider, Allowed(p, allsat))
      ensures k in alloc <==> k < provider && Get(t, s, k).u == 0 && (!allsat || p.chg[k].olength <= caphist)
    {
    }

    /** The second half of aggressive_update. */
    method AllocateFree(pc: Word, taken: bool, p: Subpath, allsat: bool, ghost t: Table, ghost tags: seq<int>,
            ghost n: nat)
      returns (ghost alloc: seq<nat>)
      requires Sized() && |pc| == 64 && Fits(p) && TableOk(t, tagbits, ctrbits)
      requires tags == Tags(pc, p) && Updated(t, tags, taken, n, [], 0)
      modifies g
      ensures Updated(t, tags, taken, n, alloc, 0)
      ensures Provider(hit, numg) <= numg && AllFree(alloc, Usefuls(t, gi[..]), Provider(hit, numg), Allowed(p, allsat))
    {
      hide Updated, Tags, Hash, Pow2, Tab, Ascending, TableOk, Usefuls, Allowed, Descending;
      UpdatedShape(t, tags, taken, n, [], 0);
      ghost var us, ok, s := Usefuls(t, gi[..]), Allowed(p, allsat), gi[..];
      alloc := [];
      DescendNothing();
      var i: int := if |hit| > 0 then hit[0] else numg;
      i := i - 1;
      while i >= 0
        invariant -1 <= i < Provider(hit, numg) <= numg
        invariant Updated(t, tags, taken, n, alloc, 0) && gi[..] == s && tags == Tags(pc, p)
        invariant Descending(alloc) && forall a :: a in alloc <==> i < a < Provider(hit, numg) && us[a] == 0 && ok[a]
      {
        DescendOnto(alloc, i);
        alloc := AllocateAt(i, pc, taken, p, allsat, t, tags, n, alloc);
        i := i - 1;
      }
    }

    lemma DescendNothing()
      ensures Descending([])
    {
    }

    lemma NotNegative(t: Table, k: nat)
      requires Sized() && TableOk(t, tagbits, ctrbits) && Indexed(t, gi[..]) && k < |t|
      ensures Lowered(Usefuls(t, gi[..])[k], 0) == Usefuls(t, gi[..])[k]
    {
      assert EntryOk(Get(t, gi[..], k), tagbits, ctrbits);
    }

    /** The update policy during ramp up. */
    method AggressiveUpdate(pc: Word, taken: bool, p: Subpath, ghost t: Table, ghost tags: seq<int>)
      returns (ghost alloc: seq<nat>, ghost allsat: bool)
      requires Valid() && Selected() && t == Tab() && |pc| == 64 && Fits(p) && tags == Tags(pc, p)
      modifies g, b
      ensures Updated(t, tags, taken, AggressiveDepth(t, gi[..], hit), alloc, 0)
      ensures allsat == AllSaturated(t, gi[..], hit, AggressiveDepth(t, gi[..], hit), old(b[bi]),
                                     AggressiveBimodal(t, gi[..], hit, old(b[bi])), taken, ctrbits)
      ensures Provider(hit, numg) <= numg && AllFree(alloc, Usefuls(t, gi[..]), Provider(hit, numg), Allowed(p, allsat))
      ensures b[..] == if AggressiveBimodal(t, gi[..], hit, old(b[bi]))
              then old(b[..])[bi := Counted(old(b[bi]), taken, ctrbits)] else old(b[..])
    {
      hide Tags, Hash, Pow2, Tab, Ascending, Counted, TableOk, CountersOk, Settled, AggressiveDepth, AggressiveBimodal,
           AllSaturated, AllFree, Allowed;
      NothingUpdated(t, tags, taken);
      var sat := AggressiveTrain(taken, t, tags);
      ghost var n, s, sel := AggressiveDepth(t, gi[..], hit), b[..], gi[..];
      assert Updated(t, tags, taken, n, [], 0);
      assert Tags(pc, p) == tags;
      alloc := AllocateFree(pc, taken, p, sat, t, tags, n);
      allsat := sat;
      assert b[..] == s && gi[..] == sel;
    }

    /** The depth of training, and what was stolen or allocated, under the careful policy. */
    ghost predicate CarefulOutcome(t: Table, s: seq<nat>, hits: seq<nat>, mis: bool, fail: int, n: nat, r: Stolen)
      requires Indexed(t, s) && HitList(t, hits) && Provider(hits, numg) <= |t|
    {
      && n == CarefulDepth(t, s, hits)
      && r == if mis then Steal(Usefuls(t, s), Provider(hits, numg), 0, fail, 0) else Stolen([], fail, 0)
    }

    /** The same under the ramp up policy. */
    ghost predicate AggressiveOutcome(t: Table, s: seq<nat>, hits: seq<nat>, bimodal: int, taken: bool, p: Subpath,
            fail: int, n: nat, r: Stolen)
      requires Indexed(t, s) && HitList(t, hits) && Provider(hits, numg) <= |t| == numg && Fits(p) && ctrbits >= 1
    {
      var allsat := AllSaturated(t, s, hits, AggressiveDepth(t, s, hits), bimodal,
          AggressiveBimodal(t, s, hits, bimodal), taken, ctrbits);
      && n == AggressiveDepth(t, s, hits) && r.fail == fail && r.clears == 0
      && AllFree(r.alloc, Usefuls(t, s), Provider(hits, numg), Allowed(p, allsat))
    }

    ghost predicate Outcome(t: Table, s: seq<nat>, hits: seq<nat>, bimodal: int, taken: bool, p: Subpath, mis: bool,
            careful: bool, fail: int, n: nat, r: Stolen)
      requires Indexed(t, s) && HitList(t, hits) && Provider(hits, numg) <= |t| == numg && Fits(p) && ctrbits >= 1
    {
      if careful then CarefulOutcome(t, s, hits, mis, fail, n, r)
        else AggressiveOutcome(t, s, hits, bimodal, taken, p, fail, n, r)
    }

    /** The two policies: the careful one leaves everything but the trained counters alone on a correct
        prediction, and steals otherwise; the other one allocates every bank below the provider that is
        not useful, except that banks with a long history are spared when all trained counters were
        saturated; it never touches the failure counter and never clears. */
    lemma OutcomeExactly(t: Table, s: seq<nat>, hits: seq<nat>, bimodal: int, taken: bool, p: Subpath, mis: bool,
            careful: bool, fail: int, n: nat, r: Stolen, k: nat)
      requires Indexed(t, s) && HitList(t, hits) && Provider(hits, numg) <= |t| == numg && Fits(p) && ctrbits >= 1
      requires Outcome(t, s, hits, bimodal, taken, p, mis, careful, fail, n, r)
      ensures careful && !mis ==> r == Stolen([], fail, 0)
      ensures careful && mis ==> r == Steal(Usefuls(t, s), Provider(hits, numg), 0, fail, 0)
      ensures careful && k < |hits| ==> (k < n <==> k == 0 || (k == 1 && Get(t, s, hits[0]).u == 0))
      ensures !careful && k < |hits| ==>
                (k < n <==> || (forall j :: 0 <= j <= k ==> (Says(t, s, hits[j]) <==> Says(t, s, hits[0])))
                            || (k == 1 && Get(t, s, hits[0]).u == 0))
      ensures !careful ==> r.fail == fail && r.clears == 0
      ensures !careful ==>
                var allsat := AllSaturated(t, s, hits, AggressiveDepth(t, s, hits), bimodal,
                                           AggressiveBimodal(t, s, hits, bimodal), taken, ctrbits);
                (k in r.alloc <==> && k < Provider(hits, numg) && Get(t, s, k).u == 0
                                   && (!allsat || p.chg[k].olength <= caphist))
    {
      hide Says, Ascending, AgreeDepth, AllSaturated, AggressiveBimodal, AggressiveDepth, CarefulDepth, Steal;
      if k < |hits| {
        CarefulDepthExactly(t, s, hits, k);
        AggressiveDepthExactly(t, s, hits, k);
      }
    }

    ghost predicate TrainsBimodal(t: Table, s: seq<nat>, hits: seq<nat>, bimodal: int, careful: bool)
      requires Indexed(t, s) && HitList(t, hits)
    {
      if careful then CarefulBimodal(t, s, hits) else AggressiveBimodal(t, s, hits, bimodal)
    }

    lemma OutcomeBelow(t: Table, s: seq<nat>, hits: seq<nat>, bimodal: int, taken: bool, p: Subpath, mis: bool,
            careful: bool, fail: int, n: nat, r: Stolen)
      requires Indexed(t, s) && HitList(t, hits) && Provider(hits, numg) <= |t| == numg && Fits(p) && ctrbits >= 1
      requires 0 <= fail <= ALLOCFAILMAX && Outcome(t, s, hits, bimodal, taken, p, mis, careful, fail, n, r)
      ensures Below(r.alloc, hits, numg) && Descending(r.alloc) && 0 <= r.fail <= ALLOCFAILMAX
    {
      hide CarefulDepth, AggressiveDepth, AllSaturated, AggressiveBimodal, Allowed, Steal;
      StolenBelow(Usefuls(t, s), Provider(hits, numg), fail, hits, numg);
    }

    lemma ProviderInside(t: Table)
      requires Selected() && |t| == numg && HitList(t, hit)
      ensures Provider(hit, numg) <= numg
    {
    }

    /** The two update policies. */
    method ApplyPolicy(pc: Word, taken: bool, p: Subpath, ghost t: Table, ghost tags: seq<int>)
      returns (ghost r: Stolen, ghost n: nat)
      requires Valid() && Selected() && t == Tab() && |pc| == 64 && Fits(p) && tags == Tags(pc, p)
               && Provider(hit, numg) <= numg
      modifies g, b, `allocfail
      ensures Updated(t, tags, taken, n, r.alloc, r.clears) && r.fail == allocfail
      ensures Outcome(t, gi[..], hit, old(b[bi]), taken, p, mispred, nmisp >= rampup, old(allocfail), n, r)
      ensures b[..] == if TrainsBimodal(t, gi[..], hit, old(b[bi]), nmisp >= rampup)
              then old(b[..])[bi := Counted(old(b[bi]), taken, ctrbits)] else old(b[..])
    {
      hide Tags, Hash, Pow2, Tab, Ascending, Counted, TableOk, CountersOk, Settled, CarefulDepth, AggressiveDepth,
           AggressiveBimodal, CarefulBimodal, AllSaturated, AllFree, Allowed, Steal;
      if nmisp < rampup {
        ghost var alloc, allsat;
        alloc, allsat := AggressiveUpdate(pc, taken, p, t, tags);
        r, n := Stolen(alloc, allocfail, 0), AggressiveDepth(t, gi[..], hit);
      } else {
        ghost var alloc, clears;
        alloc, clears := CarefulUpdate(pc, taken, p, t, tags);
        r, n := Stolen(alloc, allocfail, clears), CarefulDepth(t, gi[..], hit);
      }
    }

    /** The end of condbr_update: the useful counter of the provider, and the post-predictor.  The
        hit list is not empty when the two predictions differ. */
    method Reward(taken: bool)
      requires Selected() && 1 <= postpbits <= 8
      requires hit == [] ==> predtaken == altpredtaken
      modifies g, postp
      ensures Selected() && Tab() == Promoted(old(Tab()), gi[..], hit, predtaken != altpredtaken && predtaken == taken)
      ensures postp[..] == old(postp[..])[ppi := Counted(old(postp[ppi]), taken, postpbits)]
      ensures predtaken == altpredtaken || predtaken != taken ==> Tab() == old(Tab())
      ensures predtaken != altpredtaken && predtaken == taken ==>
                var e := old(Get(Tab(), gi[..], hit[0]));
                Tab() == Put(old(Tab()), gi[..], hit[0], GEntry(e.tag, e.ctr, if e.u < 3 then e.u + 1 else e.u))
    {
      hide Pow2, Counted, StaysSaturated, Tab;
      MaxOfThree();
      var c, sat;
      if predtaken != altpredtaken {
        if predtaken == taken {
          var e := Getg(hit[0]);
          c, sat := CtrUpdate(e.u, true, 3);
          Setg(hit[0], e.(u := c));
        }
      }
      c, sat := CtrUpdate(postp[ppi], taken, postpbits);
      postp[ppi] := c;
    }

    lemma CounterOk(before: seq<int>, after: seq<int>, k: nat, taken: bool, nbits: nat)
      requires nbits >= 1 && k < |before| && forall i :: 0 <= i < |before| ==> CtrOk(before[i], nbits)
      requires after == before || after == before[k := Counted(before[k], taken, nbits)]
      ensures |after| == |before| && forall i :: 0 <= i < |after| ==> CtrOk(after[i], nbits)
    {
    }

    /** The chosen policy keeps the tables in range. */
    method UpdateTables(pc: Word, taken: bool, p: Subpath, ghost t: Table, ghost tags: seq<int>)
      returns (ghost r: Stolen, ghost n: nat)
      requires Valid() && Selected() && t == Tab() && |pc| == 64 && Fits(p) && tags == Tags(pc, p)
      modifies g, b, `allocfail
      ensures Valid() && Selected() && Provider(hit, numg) <= numg && n <= |hit|
      ensures Tab() == Settled(t, gi[..], tags, taken, Range(hit, n), r.alloc, r.clears, ctrbits)
      ensures Outcome(t, gi[..], hit, old(b[bi]), taken, p, mispred, nmisp >= rampup, old(allocfail), n, r)
      ensures r.fail == allocfail && Below(r.alloc, hit, numg) && Descending(r.alloc)
      ensures b[..] == if TrainsBimodal(t, gi[..], hit, old(b[bi]), nmisp >= rampup)
              then old(b[..])[bi := Counted(old(b[bi]), taken, ctrbits)] else old(b[..])
    {
      hide Tags, Hash, Pow2, Tab, Ascending, Counted, TableOk, Settled, TrainsBimodal, Outcome, CtrOk, Indexed, Below,
           Descending, Provider;
      ghost var s, b0 := gi[..], b[..];
      ProviderInside(t);
      r, n := ApplyPolicy(pc, taken, p, t, tags);
      SettledOk(t, s, tags, taken, Range(hit, n), r.alloc, r.clears, tagbits, ctrbits);
      OutcomeBelow(t, s, hit, b0[bi], taken, p, mispred, nmisp >= rampup, old(allocfail), n, r);
      CounterOk(b0, b[..], bi, taken, ctrbits);
    }

    /** So does the end of the update. */
    method RewardInRange(taken: bool)
      requires Valid() && Selected()
      requires hit == [] ==> predtaken == altpredtaken
      modifies g, postp
      ensures Valid() && Selected()
      ensures Tab() == Promoted(old(Tab()), gi[..], hit, predtaken != altpredtaken && predtaken == taken)
      ensures postp[..] == old(postp[..])[ppi := Counted(old(postp[ppi]), taken, postpbits)]
    {
      hide Pow2, Tab, Ascending, Counted, TableOk, Promoted, CtrOk, Indexed;
      ghost var p0 := postp[..];
      PromotedKeeps(Tab(), gi[..], hit, predtaken != altpredtaken && predtaken == taken, tagbits, ctrbits);
      Reward(taken);
      CounterOk(p0, postp[..], ppi, taken, postpbits);
    }

    /** Update with the resolved direction. */
    method CondbrUpdate(pc: Word, taken: bool, p: Subpath) returns (m: bool, ghost r: Stolen, ghost n: nat)
      requires Valid() && Selected() && |pc| == 64 && Fits(p)
      requires hit == [] ==> predtaken == altpredtaken
      modifies g, b, postp, `mispred, `nmisp, `allocfail
      ensures Valid() && Selected() && Provider(hit, numg) <= numg && n <= |hit|
      ensures m == mispred == (postpredtaken != taken) && nmisp == old(nmisp) + (if m then 1 else 0)
      ensures Outcome(old(Tab()), gi[..], hit, old(b[bi]), taken, p, m, nmisp >= rampup, old(allocfail), n, r)
      ensures r.fail == allocfail && Below(r.alloc, hit, numg) && Descending(r.alloc)
      ensures var t := Settled(old(Tab()), gi[..], Tags(pc, p), taken, Range(hit, n), r.alloc, r.clears, ctrbits);
              Tab() == Promoted(t, gi[..], hit, predtaken != altpredtaken && predtaken == taken)
      ensures b[..] == if TrainsBimodal(old(Tab()), gi[..], hit, old(b[bi]), nmisp >= rampup)
              then old(b[..])[bi := Counted(old(b[bi]), taken, ctrbits)] else old(b[..])
      ensures postp[..] == old(postp[..])[ppi := Counted(old(postp[ppi]), taken, postpbits)]
    {
      hide Tags, Hash, Pow2, Tab, Ascending, Counted, TableOk, Settled, Promoted, TrainsBimodal, Outcome, CtrOk,
           Indexed, Below, Descending, Provider, Range, CountersOk, HitList;
      ghost var t, tags, s, p0 := Tab(), Tags(pc, p), gi[..], postp[..];
      mispred := postpredtaken != taken;
      if mispred {
        nmisp := nmisp + 1;
      }
      r, n := UpdateTables(pc, taken, p, t, tags);
      RewardInRange(taken);
      m := mispred;
      assert Tags(pc, p) == tags && gi[..] == s && postp[..] == p0[ppi := Counted(p0[ppi], taken, postpbits)];
    }

    /** Predict the same branch again, with an unchanged history, after the update. */
    method UpdateThenPredict(pc: Word, taken: bool, p: Subpath, junk: int)
      returns (r: bool, ghost s: Stolen, ghost n: nat)
      requires Valid() && Selected() && |pc| == 64 && Fits(p)
      requires hit == [] ==> predtaken == altpredtaken
      requires gi[..] == Indices(pc, p) && hit == Hits(Tab(), gi[..], Tags(pc, p), 0)
      modifies this, g, b, postp, gi
      ensures Valid() && HitList(old(Tab()), old(hit)) && Provider(old(hit), numg) <= numg
      ensures Outcome(old(Tab()), old(gi[..]), old(hit), old(b[bi]), taken, p, old(postpredtaken) != taken,
              nmisp >= rampup, old(allocfail), n, s)
      ensures hit == Reversed(s.alloc) + old(hit)
      ensures s.alloc != [] ==> predtaken == taken
    {
      hide Tags, Indices, Hash, Pow2, Tab, Ascending, Counted, TableOk, CountersOk, Settled, Promoted, TrainsBimodal,
           Outcome, Reversed, Hits, Indexed;
      ghost var t, sel, hits, tags := Tab(), gi[..], hit, Tags(pc, p);
      var m;
      m, s, n := CondbrUpdate(pc, taken, p);
      LookupAfterUpdate(t, sel, tags, taken, Range(hits, n), s.alloc, s.clears,
              predtaken != altpredtaken && predtaken == taken, tagbits, ctrbits);
      assert gi[..] == sel;
      r := PredictAgain(pc, p, junk, Tab(), sel, tags, Reversed(s.alloc) + hits, taken);
    }

    method PredictAgain(pc: Word, p: Subpath, junk: int, ghost t: Table, ghost sel: seq<nat>, ghost tags: seq<int>,
            ghost h: seq<nat>, ghost taken: bool) returns (r: bool)
      requires Valid() && |pc| == 64 && Fits(p) && t == Tab() && sel == Indices(pc, p) && tags == Tags(pc, p)
      requires Indexed(t, sel) && h == Hits(t, sel, tags, 0)
      modifies this, gi
      ensures Valid() && hit == h && nmisp == old(nmisp)
      ensures h != [] && h[0] < |t| && (Says(t, sel, h[0]) <==> taken) ==> predtaken == taken
    {
      hide Tags, Indices, Hash, Pow2, Tab, Ascending, TableOk, CountersOk, Hits, Says;
      r := CondbrPredict(pc, p, junk);
      assert Tab() == t && Indices(pc, p) == sel && Tags(pc, p) == tags;
    }

    // ----- A whole branch, told from the path alone

    ghost function Image(): Tables
      reads this, b, g, postp
    {
      Tables(Tab(), b[..], postp[..], allocfail, nmisp)
    }

    /** The path is long enough for every register. */
    ghost predicate Long(p: Subpath, path: seq<Word>) {
      && Fits(p)
      && forall k :: 0 <= k < numg ==>
           && p.chg[k].olength <= |path| && p.chgg[k].olength <= |path|
           && p.cht[k].olength <= |path| && p.chtt[k].olength <= |path|
    }

    ghost function IndicesOn(pc: Word, p: Subpath, path: seq<Word>): (s: seq<nat>)
      requires |pc| == 64 && Long(p, path)
      ensures |s| == numg
    {
      seq(numg, i requires 0 <= i < numg =>
        Hash(pc, FoldOf(p.chg[i], path), Shl(FoldOf(p.chgg[i], path), p.chg[i].clength - p.chgg[i].clength), logg))
    }

    ghost function TagsOn(pc: Word, p: Subpath, path: seq<Word>): (s: seq<int>)
      requires |pc| == 64 && Long(p, path)
      ensures |s| == numg
    {
      seq(numg, i requires 0 <= i < numg =>
        Hash(pc, FoldOf(p.cht[i], path), Shl(FoldOf(p.chtt[i], path), p.cht[i].clength - p.chtt[i].clength), tagbits))
    }

    /** Indices and tags are functions of the address and the path. */
    lemma OnPath(pc: Word, p: Subpath)
      requires |pc| == 64 && p.Valid() && Fits(p)
      ensures Long(p, p.Path())
      ensures Indices(pc, p) == IndicesOn(pc, p, p.Path()) && Tags(pc, p) == TagsOn(pc, p, p.Path())
    {
      hide Hash, Fold, Subpath.Valid, Subpath.Path;
      p.HasPath();
      forall k | 0 <= k < numg
        ensures p.chg[k].olength <= |p.Path()| && p.chg[k].Folds(p.Path())
        ensures p.chgg[k].olength <= |p.Path()| && p.chgg[k].Folds(p.Path())
        ensures p.cht[k].olength <= |p.Path()| && p.cht[k].Folds(p.Path())
        ensures p.chtt[k].olength <= |p.Path()| && p.chtt[k].Folds(p.Path())
      {
        p.RegistersFold(k);
      }
      var s, tags := Indices(pc, p), Tags(pc, p);
      forall k | 0 <= k < numg
        ensures s[k] == IndicesOn(pc, p, p.Path())[k] && tags[k] == TagsOn(pc, p, p.Path())[k]
      {
      }
    }

    lemma ServedBy(p: Subpath, path: seq<Word>, e: Branch, s: Tables, s': Tables, r: bool, gi: seq<nat>, bi: nat,
            hits: seq<nat>, v: int, n: nat, st: Stolen)
      requires Long(p, path) && |e.pc| == 64 && ctrbits >= 1 && postpbits >= 1
      requires gi == IndicesOn(e.pc, p, path) && bi == Hash(e.pc, [], [], logb) && bi < |s.b|
      requires |s.tab| == numg && Indexed(s.tab, gi) && hits == Hits(s.tab, gi, TagsOn(e.pc, p, path), 0)
      requires HitList(s.tab, hits) && Provider(hits, numg) <= numg
      requires v == PostpIndexOf(s.tab, gi, hits, s.b[bi], ctrbits) && 0 <= v < |s.postp|
      requires r == (s.postp[v] >= 0) && s'.nmisp == s.nmisp + (if r != e.taken then 1 else 0)
      requires s'.postp == s.postp[v := Counted(s.postp[v], e.taken, postpbits)]
      requires s'.b == (if TrainsBimodal(s.tab, gi, hits, s.b[bi], s'.nmisp >= rampup)
                        then s.b[bi := Counted(s.b[bi], e.taken, ctrbits)] else s.b)
      requires Outcome(s.tab, gi, hits, s.b[bi], e.taken, p, r != e.taken, s'.nmisp >= rampup, s.allocfail, n, st)
      requires st.fail == s'.allocfail && n <= |hits|
      requires s'.tab == Promoted(
                 Settled(s.tab, gi, TagsOn(e.pc, p, path), e.taken, Range(hits, n), st.alloc, st.clears, ctrbits),
                 gi, hits,
                 Direction(s.tab, gi, hits, 0, s.b[bi]) != Direction(s.tab, gi, hits, 1, s.b[bi])
                 && Direction(s.tab, gi, hits, 0, s.b[bi]) == e.taken)
      ensures Served(p, path, e, s, s', r)
    {
      hide Long, IndicesOn, TagsOn, Hash, Hits, Indexed, HitList, Provider, PostpIndexOf, Counted, TrainsBimodal,
           Outcome, Promoted, Settled, Range, Direction;
    }

    /** What one branch does: r is predicted from path and tables, and the tables are updated. */
    ghost predicate Served(p: Subpath, path: seq<Word>, e: Branch, s: Tables, s': Tables, r: bool) {
      && Long(p, path) && |e.pc| == 64 && ctrbits >= 1 && postpbits >= 1
      && var gi, tags, bi := IndicesOn(e.pc, p, path), TagsOn(e.pc, p, path), Hash(e.pc, [], [], logb);
      && |s.tab| == numg && Indexed(s.tab, gi) && bi < |s.b|
      && var hits := Hits(s.tab, gi, tags, 0);
      && HitList(s.tab, hits) && Provider(hits, numg) <= numg
      && var v := PostpIndexOf(s.tab, gi, hits, s.b[bi], ctrbits);
      && 0 <= v < |s.postp|
      && r == (s.postp[v] >= 0)
      && s'.nmisp == s.nmisp + (if r != e.taken then 1 else 0)
      && s'.postp == s.postp[v := Counted(s.postp[v], e.taken, postpbits)]
      && s'.b == (if TrainsBimodal(s.tab, gi, hits, s.b[bi], s'.nmisp >= rampup)
                  then s.b[bi := Counted(s.b[bi], e.taken, ctrbits)] else s.b)
      && exists n: nat, st: Stolen ::
           && Outcome(s.tab, gi, hits, s.b[bi], e.taken, p, r != e.taken, s'.nmisp >= rampup, s.allocfail, n, st)
           && st.fail == s'.allocfail && n <= |hits|
           && s'.tab == Promoted(
                Settled(s.tab, gi, tags, e.taken, Range(hits, n), st.alloc, st.clears, ctrbits), gi, hits,
                Direction(s.tab, gi, hits, 0, s.b[bi]) != Direction(s.tab, gi, hits, 1, s.b[bi])
                && Direction(s.tab, gi, hits, 0, s.b[bi]) == e.taken)
    }
  }

  /** One branch as a trace has it. */
  datatype Branch = Branch(pc: Word, target: Word, taken: bool, junk: int)

  /** Everything the predictor remembers from branch to branch. */
  datatype Tables = Tables(tab: Table, b: seq<int>, postp: seq<int>, allocfail: int, nmisp: nat)

  /** The register as the path determines it. */
  ghost function FoldOf(r: CompressedHistory, path: seq<Word>): Word
    requires r.olength <= |path|
  {
    Fold(W, path, r.nbits, r.clength, r.olength)
  }

  /** What a branch puts into the path. */
  function PathPc(e: Branch): (w: Word)
    requires |e.pc| == |e.target| == 64
    ensures |w| == 64
  {
    if e.taken then Xor(Shl(e.target, 1), e.pc) else e.pc
  }

  lemma PathPcBits(e: Branch)
    requires |e.pc| == |e.target| == 64
    ensures forall j :: 0 <= j < 64 ==> PathPc(e)[j] == (e.pc[j] != (e.taken && j > 0 && e.target[j - 1]))
  {
  }

  /** The path entry of a branch: its direction, and above it the bits of its address, XORed with those
      of the doubled target if it was taken. */
  ghost predicate EntryOf(w: Word, e: Branch) {
    && |w| == W && |e.pc| == |e.target| == 64 && w[0] == e.taken
    && forall j :: 0 <= j < W - 1 ==> w[j + 1] == (e.pc[j] != (e.taken && j > 0 && e.target[j - 1]))
  }

  ghost predicate TraceOk(trace: seq<Branch>) {
    forall k :: 0 <= k < |trace| ==> |trace[k].pc| == |trace[k].target| == 64
  }

  /** Predict and update. */
  method Serve(t: Tage, p: Subpath, e: Branch) returns (r: bool)
    requires t.Valid() && p.Valid() && t.Fits(p) && |e.pc| == 64
    modifies t, t.b, t.g, t.gi, t.postp
    ensures t.Valid() && t.Served(p, p.Path(), e, old(t.Image()), t.Image(), r)
  {
    hide Tage.Tab, Tage.Tags, Tage.Indices, Hits, TableOk, Tage.CountersOk, Pow2, PostpIndexOf, Ascending, Tage.Outcome,
         Promoted, Settled, Tage.TrainsBimodal, Hash, Tage.IndicesOn, Tage.TagsOn, Tage.Long, Subpath.Valid, Direction,
         Counted, Indexed, HitList, Subpath.Path, Range;
    t.OnPath(e.pc, p);
    p.HasPath();
    ghost var path, tags := p.Path(), t.Tags(e.pc, p);
    r := t.CondbrPredict(e.pc, p, e.junk);
    ghost var s, gi, hit := t.Image(), t.gi[..], t.hit;
    assert s == old(t.Image()) && t.Tags(e.pc, p) == tags;
    OneProvider(s.tab, gi, hit, s.b[t.bi]);
    ghost var st, n;
    var m;
    m, st, n := t.CondbrUpdate(e.pc, e.taken, p);
    assert t.gi[..] == gi && t.hit == hit && p.Path() == path && t.Tags(e.pc, p) == tags;
    t.ServedBy(p, path, e, s, t.Image(), r, gi, t.bi, hit, t.ppi, n, st);
  }

  /** Without a hit both predictions are the bimodal one. */
  lemma OneProvider(t: Table, gi: seq<nat>, hits: seq<nat>, bimodal: int)
    requires Indexed(t, gi) && HitList(t, hits)
    ensures hits == [] ==> Direction(t, gi, hits, 0, bimodal) == Direction(t, gi, hits, 1, bimodal)
  {
  }

  ghost function Wrong(preds: seq<bool>, trace: seq<Branch>): set<nat>
    requires |preds| <= |trace|
  {
    set k: nat | k < |preds| && preds[k] != trace[k].taken
  }

  lemma OneMore(preds: seq<bool>, trace: seq<Branch>, r: bool)
    requires |preds| < |trace|
    ensures |Wrong(preds + [r], trace)| == |Wrong(preds, trace)| + if r != trace[|preds|].taken then 1 else 0
  {
    var k := |preds|;
    assert Wrong(preds + [r], trace) == if r != trace[k].taken then Wrong(preds, trace) + {k} else Wrong(preds, trace);
  }

  /** The path after the first i branches of a trace. */
  ghost predicate Walked(path0: seq<Word>, trace: seq<Branch>, i: nat, path: seq<Word>)
    requires i <= |trace|
  {
    && |path| == |path0|
    && forall j :: 0 <= j < |path| ==> if j < i then EntryOf(path[j], trace[i - 1 - j]) else path[j] == path0[j - i]
  }

  lemma WalkOn(path0: seq<Word>, trace: seq<Branch>, i: nat, path: seq<Word>, path': seq<Word>)
    requires i < |trace| && Walked(path0, trace, i, path) && |path'| == |path| > 0
    requires EntryOf(path'[0], trace[i]) && path'[1..] == path[..|path| - 1]
    ensures Walked(path0, trace, i + 1, path')
  {
    hide EntryOf;
    forall j | 0 <= j < |path'|
      ensures if j < i + 1 then EntryOf(path'[j], trace[i - j]) else path'[j] == path0[j - i - 1]
    {
      assert j > 0 ==> path'[j] == path'[1..][j - 1] == path[j - 1];
    }
  }

  /** The branches served so far, with the tables and the path before, between and after them. */
  ghost predicate Trail(t: Tage, p: Subpath, trace: seq<Branch>, preds: seq<bool>, states: seq<Tables>,
          paths: seq<seq<Word>>) {
    && |preds| <= |trace| && |states| == |paths| == |preds| + 1
    && (forall k :: 0 <= k < |preds| ==> t.Served(p, paths[k], trace[k], states[k], states[k + 1], preds[k]))
    && (forall k :: 0 <= k <= |preds| ==> Walked(paths[0], trace, k, paths[k]))
    && states[|preds|].nmisp == states[0].nmisp + |Wrong(preds, trace)|
  }

  lemma TrailBegins(t: Tage, p: Subpath, trace: seq<Branch>, image: Tables, path: seq<Word>)
    ensures Trail(t, p, trace, [], [image], [path])
  {
    hide Tage.Served, EntryOf;
    assert Wrong([], trace) == {};
  }

  lemma TrailGrows(t: Tage, p: Subpath, trace: seq<Branch>, preds: seq<bool>, states: seq<Tables>,
          paths: seq<seq<Word>>, r: bool, image: Tables, path: seq<Word>)
    requires Trail(t, p, trace, preds, states, paths) && |preds| < |trace|
    requires t.Served(p, paths[|preds|], trace[|preds|], states[|preds|], image, r)
    requires |path| == |paths[|preds|]| > 0 && EntryOf(path[0], trace[|preds|])
    requires path[1..] == paths[|preds|][..|path| - 1]
    ensures Trail(t, p, trace, preds + [r], states + [image], paths + [path])
  {
    hide Tage.Served, EntryOf, Walked, Wrong;
    var k := |preds|;
    OneMore(preds, trace, r);
    ServedCounts(t, p, paths[k], trace[k], states[k], image, r);
    WalkOn(paths[0], trace, k, paths[k], path);
  }

  lemma TrailEnds(t: Tage, p: Subpath, trace: seq<Branch>, preds: seq<bool>, states: seq<Tables>,
          paths: seq<seq<Word>>)
    requires Trail(t, p, trace, preds, states, paths) && |preds| == |trace| && states[|trace|] == t.Image()
    ensures t.nmisp == states[0].nmisp + |Wrong(preds, trace)|
  {
  }

  /** Predict, update and record every branch of a trace.  No ASSERT fires and all ranges are kept; each
      branch is predicted from the path of the branches before it and the tables they have left, and
      leaves the tables as one update does; at the end the path holds the branches, newest first, and
      nmisp has counted the wrong predictions. */
  method Run(t: Tage, p: Subpath, trace: seq<Branch>)
    returns (preds: seq<bool>, ghost states: seq<Tables>, ghost paths: seq<seq<Word>>)
    requires t.Valid() && p.Valid() && t.Fits(p) && TraceOk(trace)
    modifies t, t.b, t.g, t.gi, t.postp, p.ph, p.ph.h, p.Registers()
    ensures t.Valid() && p.Valid() && p.ph.Valid()
    ensures |preds| == |trace| && |states| == |paths| == |trace| + 1
    ensures states[0] == old(t.Image()) && states[|trace|] == t.Image()
    ensures paths[0] == old(p.Path()) && paths[|trace|] == p.Path()
    ensures forall k :: 0 <= k < |trace| ==> t.Served(p, paths[k], trace[k], states[k], states[k + 1], preds[k])
    ensures forall k :: 0 <= k <= |trace| ==> Walked(paths[0], trace, k, paths[k])
    ensures t.nmisp == states[0].nmisp + |Wrong(preds, trace)|
  {
    hide Tage.Valid, Subpath.Valid, Subpath.Path, Tage.Served, Walked, EntryOf, Tage.Image, Wrong;
    p.HasPath();
    preds, states, paths := [], [t.Image()], [p.Path()];
    TrailBegins(t, p, trace, t.Image(), p.Path());
    for k := 0 to |trace|
      invariant t.Valid() && p.Valid() && p.ph.Valid()
      invariant |preds| == k && Trail(t, p, trace, preds, states, paths)
      invariant states[0] == old(t.Image()) && states[k] == t.Image()
      invariant paths[0] == old(p.Path()) && paths[k] == p.Path()
    {
      hide Trail;
      TrailSizes(t, p, trace, preds, states, paths);
      var r := Turn(t, p, trace[k]);
      TrailGrows(t, p, trace, preds, states, paths, r, t.Image(), p.Path());
      preds, states, paths := preds + [r], states + [t.Image()], paths + [p.Path()];
    }
    TrailEnds(t, p, trace, preds, states, paths);
  }

  lemma TrailSizes(t: Tage, p: Subpath, trace: seq<Branch>, preds: seq<bool>, states: seq<Tables>,
          paths: seq<seq<Word>>)
    requires Trail(t, p, trace, preds, states, paths)
    ensures |states| == |paths| == |preds| + 1
  {
  }

  /** Record one branch. */
  method Record(p: Subpath, e: Branch)
    requires p.Valid() && p.ph.Valid() && |e.pc| == |e.target| == 64
    modifies p.ph, p.ph.h, p.Registers()
    ensures p.Valid() && p.ph.Valid()
    ensures |p.Path()| == |old(p.Path())| > 0 && EntryOf(p.Path()[0], e)
    ensures p.Path()[1..] == old(p.Path())[..|p.Path()| - 1]
  {
    hide Subpath.Valid, Subpath.Path, PathPc, EntryOf;
    p.HasPath();
    p.Update(PathPc(e), e.taken);
    EntryIs(p.Path()[0], e);
  }

  /** Predict, update and record one branch. */
  method Turn(t: Tage, p: Subpath, e: Branch) returns (r: bool)
    requires t.Valid() && p.Valid() && p.ph.Valid() && t.Fits(p) && |e.pc| == |e.target| == 64
    modifies t, t.b, t.g, t.gi, t.postp, p.ph, p.ph.h, p.Registers()
    ensures t.Valid() && p.Valid() && p.ph.Valid()
    ensures t.Served(p, old(p.Path()), e, old(t.Image()), t.Image(), r)
    ensures |p.Path()| == |old(p.Path())| > 0 && EntryOf(p.Path()[0], e)
    ensures p.Path()[1..] == old(p.Path())[..|p.Path()| - 1]
  {
    hide Tage.Valid, Subpath.Valid, Subpath.Path, Tage.Served, EntryOf, Tage.Image, Tage.Fits;
    ghost var path0 := p.Path();
    r := Serve(t, p, e);
    assert p.Path() == path0;
    ghost var image := t.Image();
    Record(p, e);
    assert t.Image() == image;
  }

  lemma ServedCounts(t: Tage, p: Subpath, path: seq<Word>, e: Branch, s: Tables, s': Tables, r: bool)
    requires t.Served(p, path, e, s, s', r)
    ensures s'.nmisp == s.nmisp + (if r != e.taken then 1 else 0)
  {
  }

  lemma EntryIs(w: Word, e: Branch)
    requires |e.pc| == |e.target| == 64 && |w| == W && w[0] == e.taken
    requires forall j :: 0 <= j < W - 1 ==> w[j + 1] == PathPc(e)[j]
    ensures EntryOf(w, e)
  {
    PathPcBits(e);
    hide PathPc;
  }

  lemma DescendOnto(alloc: seq<nat>, k: nat)
    requires Descending(alloc) && forall a :: a in alloc ==> k < a
    ensures Descending(alloc + [k]) && forall a :: a in alloc + [k] <==> a in alloc || a == k
  {
    forall i | 0 <= i < |alloc| ensures alloc[i] > k { assert alloc[i] in alloc; }
  }

  /** The rest of the walk put behind what has been stolen so far. */
  ghost function Onward(alloc: seq<nat>, r: Stolen): Stolen {
    r.(alloc := alloc + r.alloc)
  }

  lemma StealEnd(us: seq<int>, i: int, nalloc: nat, fail: int, clears: nat, alloc: seq<nat>)
    requires i <= |us| && i <= 0
    ensures Onward(alloc, Steal(us, i, nalloc, fail, clears)) == Stolen(alloc, fail, clears)
  {
  }

  lemma StealStep(us: seq<int>, k: nat, nalloc: nat, fail: int, clears: nat, alloc: seq<nat>)
    requires k < |us|
    ensures Onward(alloc, Steal(us, k + 1, nalloc, fail, clears)) ==
            if Lowered(us[k], clears) == 0 then
              var fail' := if fail > 0 then fail - 1 else fail;
              if nalloc + 1 == MAXALLOC then Stolen(alloc + [k], fail', clears)
              else Onward(alloc + [k], Steal(us, k - 1, nalloc + 1, fail', clears))
            else
              var fail' := if fail < ALLOCFAILMAX then fail + 1 else fail;
              Onward(alloc, Steal(us, k, nalloc, fail', if fail' == ALLOCFAILMAX then clears + 1 else clears))
  {
    var fail' := if fail > 0 then fail - 1 else fail;
    if Lowered(us[k], clears) == 0 && nalloc + 1 != MAXALLOC {
      var r := Steal(us, k - 1, nalloc + 1, fail', clears);
      assert alloc + ([k] + r.alloc) == (alloc + [k]) + r.alloc;
    }
  }
}
