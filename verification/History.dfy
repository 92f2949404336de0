/** The path history ring of the CBP predictor and the registers that fold it. */
module History {
  import opened Bits
  import opened Folding

  const W := 32   // an unsigned int

  /** class path_history: a ring whose newest entry is at ptr. */
  class PathHistory {
    var ptr: int
    const hlength: int
    const h: array<Word>

    ghost predicate Valid()
      reads this
    {
      0 <= ptr < hlength == h.Length
    }

    /** The entries, newest first. */
    ghost function Contents(): (s: seq<Word>)
      requires Valid()
      reads this, h
      ensures |s| == hlength
    {
      h[ptr..] + h[..ptr]
    }

    constructor (hlen: int)
      requires hlen > 0
      ensures Valid() && hlength == hlen && fresh(h)
      ensures forall n :: 0 <= n < hlen ==> Contents()[n] == Zero(W)
    {
      hlength := hlen;
      h := new Word[hlen](_ => Zero(W));
      ptr := 0;
    }

    method Insert(val: Word)
      requires Valid()
      modifies `ptr, h
      ensures Valid() && Contents() == Pushed(old(Contents()), val)
    {
      ptr := ptr - 1;
      if ptr == -1 {
        ptr := hlength - 1;
      }
      h[ptr] := val;
    }

    /** operator []; the requires is its first ASSERT. */
    method Entry(n: int) returns (e: Word)
      requires Valid() && 0 <= n < hlength
      ensures e == Contents()[n]
    {
      var k := ptr + n;
      if k >= hlength {
        k := k - hlength;
      }
      assert 0 <= k < hlength;
      e := h[k];
    }
  }

  /** An unsigned int of which only the low c bits may be set. */
  ghost predicate Register(x: Word, c: nat) {
    |x| == W && Narrow(x, c)
  }

  /** class compressed_history: a cyclic shift register. */
  class CompressedHistory {
    var comp: Word
    const clength: nat
    const olength: nat
    const nbits: nat
    const outpoint: nat
    const mask1: Word
    const mask2: Word
    ghost const slot: nat    // tells the registers of a subpath apart

    ghost predicate Valid()
      reads this
    {
      && 0 < clength < W && nbits <= clength
      && outpoint == olength % clength
      && mask1 == Mask(W, clength) && mask2 == Mask(W, nbits)
      && Register(comp, clength)
    }

    /** The register holds the fold of the olength newest entries. */
    ghost predicate Folds(hist: seq<Word>)
      reads this
    {
      olength <= |hist| && comp == Fold(W, hist, nbits, clength, olength)
    }

    constructor (originalLength: nat, compressedLength: nat, injectedBits: nat, ghost slotNumber: nat)
      requires compressedLength > 0
      requires compressedLength < 32          // ASSERT
      requires injectedBits <= compressedLength  // ASSERT
      ensures Valid() && olength == originalLength && clength == compressedLength && nbits == injectedBits
      ensures comp == Zero(W) && slot == slotNumber
    {
      slot := slotNumber;
      olength := originalLength;
      clength := compressedLength;
      nbits := injectedBits;
      outpoint := originalLength % compressedLength;
      mask1 := Mask(W, compressedLength);
      mask2 := Mask(W, injectedBits);
      comp := Zero(W);
    }

    /** rotateleft; the requires are its ASSERTs. */
    method RotateLeft(x: Word, m: nat) returns (r: Word)
      requires Valid() && m < clength && Register(x, clength)
      ensures Register(r, clength) && forall b :: 0 <= b < clength ==> r[b] == x[Source(b, m, clength)]
    {
      var y := Shr(x, clength - m);
      r := Or(Shl(x, m), y);
      r := And(r, mask1);
    }

    /** One step.  The first rotateleft asserts 1 < clength, and ph[olength] that olength < hlength. */
    method Update(ph: PathHistory)
      requires Valid() && ph.Valid() && 1 < clength && olength < ph.hlength
      requires |ph.Contents()[0]| == |ph.Contents()[olength]| == W
      modifies `comp
      ensures Valid()
      ensures comp == Next(old(comp), nbits, clength, olength, ph.Contents()[0], ph.Contents()[olength])
    {
      comp := RotateLeft(comp, 1);
      var newest := ph.Entry(0);
      var inbits := And(newest, mask2);
      var oldest := ph.Entry(olength);
      var outbits := And(oldest, mask2);
      outbits := RotateLeft(outbits, outpoint);
      comp := Xor(Xor(comp, inbits), outbits);
    }
  }

  // ----- A subpath: one ring and four registers for each bank

  /** The history length of the k-th shortest bank: strictly increasing even where hist is not. */
  function Length(hist: seq<int>, k: nat): (n: nat)
    requires k < |hist|
    ensures n >= k + 1 && n >= hist[k]
  {
    var shorter := if k == 0 then 0 else Length(hist, k - 1);
    if shorter < hist[k] then hist[k] else shorter + 1
  }

  lemma {:induction false} LengthBound(hist: seq<int>, k: nat, m: int)
    requires k < |hist|
    ensures Length(hist, k) <= m <==> k + 1 <= m && forall j :: 0 <= j <= k ==> hist[j] + (k - j) <= m
  {
    if k > 0 {
      LengthBound(hist, k - 1, m - 1);
      assert Length(hist, k) <= m <==> Length(hist, k - 1) <= m - 1 && hist[k] <= m;
    }
  }

  lemma {:induction false} LengthIncreases(hist: seq<int>, k: nat, l: nat)
    requires k <= l < |hist|
    ensures Length(hist, k) <= Length(hist, l)
  {
    if k < l { LengthIncreases(hist, k, l - 1); }
  }

  /** No ASSERT of the ring fires exactly when the given lengths leave room to be made increasing. */
  lemma LengthsFitExactly(hist: seq<int>)
    requires |hist| > 0
    ensures var last := hist[|hist| - 1];
            (forall k :: 0 <= k < |hist| ==> Length(hist, k) < last + 1)
            <==> (|hist| <= last && forall j :: 0 <= j < |hist| ==> hist[j] + (|hist| - 1 - j) <= last)
  {
    var n, last := |hist|, hist[|hist| - 1];
    LengthBound(hist, n - 1, last);
    forall k | 0 <= k < n ensures Length(hist, k) <= Length(hist, n - 1) {
      LengthIncreases(hist, k, n - 1);
    }
    if forall k :: 0 <= k < n ==> Length(hist, k) < last + 1 {
      assert Length(hist, n - 1) <= last;
    }
  }

  /** Two equal lengths at the end never fit. */
  lemma EqualLengthsDoNotFit()
    ensures var hist := [3, 3]; Length(hist, 1) == 4 && !(Length(hist, 1) < hist[1] + 1)
  {
    assert Length([3, 3], 0) == 3;
  }

  class Subpath {
    const ph: PathHistory
    const numg: nat
    const chg: seq<CompressedHistory>
    const chgg: seq<CompressedHistory>
    const cht: seq<CompressedHistory>
    const chtt: seq<CompressedHistory>

    /** The lengths must fit the ring (LengthsFitExactly says when); the other requires are the
        ASSERTs of init, and of the first update. */
    constructor (hist: seq<int>, logg: nat, tagbits: nat, pathbits: nat, hp: nat)
      requires |hist| > 0 && Length(hist, |hist| - 1) < hist[|hist| - 1] + 1
      requires 2 <= logg < 32 && 2 <= logg - hp && 3 <= tagbits < 32
      requires pathbits <= logg - hp && pathbits <= tagbits - 1
      ensures Valid() && fresh(ph) && fresh(ph.h) && fresh(chg) && fresh(chgg) && fresh(cht) && fresh(chtt)
              && numg == |hist|
      ensures Widths() && forall k :: 0 <= k < |Path()| ==> Path()[k] == Zero(W)
      ensures LengthsAre(hist)
      ensures forall k :: 0 <= k < numg ==>
                && chg[k].clength == logg && chgg[k].clength == logg - hp
                && cht[k].clength == tagbits && chtt[k].clength == tagbits - 1
                && chg[k].nbits == chgg[k].nbits == cht[k].nbits == chtt[k].nbits == pathbits
    {
      hide Built, Registered, Length, Fold, Mask, Banks, Widths, Slots, LengthsAre;
      var ng := |hist|;
      var ring := new PathHistory(hist[ng - 1] + 1);
      numg, ph := ng, ring;
      var a, b, c, d := Init(hist, logg, tagbits, pathbits, hp);
      chg, chgg, cht, chtt := a, b, c, d;
      new;
      BuiltSlots(hist, logg, logg - hp, tagbits, tagbits - 1, pathbits);
      BuiltBanks(hist, logg, logg - hp, tagbits, tagbits - 1, pathbits);
      BuiltWidths(hist, logg, logg - hp, tagbits, tagbits - 1, pathbits);
    }

    /** The registers of all banks, from the shortest history to the longest. */
    static method Init(hist: seq<int>, logg: nat, tagbits: nat, pathbits: nat, hp: nat)
      returns (a: seq<CompressedHistory>, b: seq<CompressedHistory>, c: seq<CompressedHistory>,
            d: seq<CompressedHistory>)
      requires |hist| > 0
      requires 2 <= logg < 32 && 2 <= logg - hp && 3 <= tagbits < 32
      requires pathbits <= logg - hp && pathbits <= tagbits - 1
      ensures Built(a, hist, 0, 0, logg, pathbits) && Built(b, hist, 0, 1, logg - hp, pathbits)
      ensures Built(c, hist, 0, 2, tagbits, pathbits) && Built(d, hist, 0, 3, tagbits - 1, pathbits)
      ensures fresh(a) && fresh(b) && fresh(c) && fresh(d)
    {
      hide Built, Length;
      a, b, c, d := [], [], [], [];
      var ng := |hist|;
      var ghlen: nat := 0;
      var i := ng;
      BuiltNothing(hist);
      while i > 0
        invariant 0 <= i <= ng && ghlen == if i == ng then 0 else Length(hist, ng - 1 - i)
        invariant Built(a, hist, i, 0, logg, pathbits) && Built(b, hist, i, 1, logg - hp, pathbits)
        invariant Built(c, hist, i, 2, tagbits, pathbits) && Built(d, hist, i, 3, tagbits - 1, pathbits)
        invariant fresh(a) && fresh(b) && fresh(c) && fresh(d)
        modifies {}
      {
        i := i - 1;
        ghlen := if ghlen < hist[ng - 1 - i] then hist[ng - 1 - i] else ghlen + 1;
        NextLength(hist, ng - 1 - i);
        a := AddRegister(a, hist, i, 0, logg, pathbits, ghlen);
        b := AddRegister(b, hist, i, 1, logg - hp, pathbits, ghlen);
        c := AddRegister(c, hist, i, 2, tagbits, pathbits, ghlen);
        d := AddRegister(d, hist, i, 3, tagbits - 1, pathbits, ghlen);
      }
    }

    lemma BuiltBanks(hist: seq<int>, c0: nat, c1: nat, c2: nat, c3: nat, nbits: nat)
      requires numg == |hist| > 0 && c0 > 1 && c1 > 1 && c2 > 1 && c3 > 1
      requires Built(chg, hist, 0, 0, c0, nbits) && Built(chgg, hist, 0, 1, c1, nbits)
      requires Built(cht, hist, 0, 2, c2, nbits) && Built(chtt, hist, 0, 3, c3, nbits)
      requires ph.Valid() && ph.hlength == hist[|hist| - 1] + 1 && Length(hist, |hist| - 1) < ph.hlength
      requires forall n :: 0 <= n < ph.hlength ==> Path()[n] == Zero(W)
      ensures |chg| == |chgg| == |cht| == |chtt| == numg && forall k :: 0 <= k < numg ==> Banks(k, Path())
    {
      BuiltSlots(hist, c0, c1, c2, c3, nbits);
      hide Built, Registered, Length, Banks;
      forall k | 0 <= k < numg ensures Banks(k, Path()) {
        BuiltBank(chg, hist, 0, c0, nbits, k);
        BuiltBank(chgg, hist, 1, c1, nbits, k);
        BuiltBank(cht, hist, 2, c2, nbits, k);
        BuiltBank(chtt, hist, 3, c3, nbits, k);
        BankOf(k);
      }
    }

    static lemma NextLength(hist: seq<int>, k: nat)
      requires k < |hist|
      ensures var s := if k == 0 then 0 else Length(hist, k - 1);
              Length(hist, k) == if s < hist[k] then hist[k] else s + 1
    {
    }

    static lemma BuiltNothing(hist: seq<int>)
      ensures forall kind, c, nbits :: Built([], hist, |hist|, kind, c, nbits)
    {
    }

    /** Initialise the register of one kind for bank i. */
    static method AddRegister(regs: seq<CompressedHistory>, ghost hist: seq<int>, ghost i: nat, ghost kind: nat, c: nat,
            nbits: nat, ghlen: nat)
      returns (all: seq<CompressedHistory>)
      requires Built(regs, hist, i + 1, kind, c, nbits) && i < |hist| && ghlen == Length(hist, |hist| - 1 - i)
      requires 0 < c < 32 && nbits <= c
      ensures Built(all, hist, i, kind, c, nbits) && |all| > 0 && all[1..] == regs && fresh(all[0])
    {
      hide Length, Mask;
      var r := new CompressedHistory(ghlen, c, nbits, 4 * i + kind);
      all := [r] + regs;
    }

    /** The registers of banks i and up, as init leaves them. */
    ghost static predicate Built(regs: seq<CompressedHistory>, hist: seq<int>, i: nat, kind: nat, c: nat, nbits: nat)
      reads regs
    {
      && i + |regs| == |hist|
      && forall k :: 0 <= k < |regs| ==>
           && regs[k].slot == 4 * (i + k) + kind && regs[k].olength == Length(hist, |regs| - 1 - k)
           && regs[k].clength == c && regs[k].nbits == nbits && regs[k].Valid() && regs[k].comp == Zero(W)
    }

    lemma BuiltBank(regs: seq<CompressedHistory>, hist: seq<int>, kind: nat, c: nat, nbits: nat, k: nat)
      requires Built(regs, hist, 0, kind, c, nbits) && k < |regs| && c > 1
      requires ph.Valid() && ph.hlength == hist[|hist| - 1] + 1 && Length(hist, |hist| - 1) < ph.hlength
      requires forall n :: 0 <= n < ph.hlength ==> Path()[n] == Zero(W)
      ensures Registered(regs[k], Path())
    {
      var n := |regs| - 1 - k;
      LengthIncreases(hist, n, |hist| - 1);
      FoldOfNothing(W, Path(), nbits, c, regs[k].olength);
    }

    lemma BankOf(k: nat)
      requires |chg| == |chgg| == |cht| == |chtt| == numg && k < numg && ph.Valid()
      requires Registered(chg[k], Path()) && Registered(chgg[k], Path()) && Registered(cht[k], Path())
               && Registered(chtt[k], Path())
      ensures Banks(k, Path())
    {
    }

    lemma BuiltSlots(hist: seq<int>, c0: nat, c1: nat, c2: nat, c3: nat, nbits: nat)
      requires numg == |hist|
      requires Built(chg, hist, 0, 0, c0, nbits) && Built(chgg, hist, 0, 1, c1, nbits)
      requires Built(cht, hist, 0, 2, c2, nbits) && Built(chtt, hist, 0, 3, c3, nbits)
      ensures Slots() && LengthsAre(hist)
    {
    }

    /** Bank 0 has the longest history. */
    ghost predicate LengthsAre(hist: seq<int>) {
      && numg == |hist| == |chg|
      && forall k :: 0 <= k < numg ==> chg[k].olength == Length(hist, numg - 1 - k)
    }

    lemma BuiltWidths(hist: seq<int>, c0: nat, c1: nat, c2: nat, c3: nat, nbits: nat)
      requires numg == |hist| && c1 <= c0 && c3 <= c2
      requires Built(chg, hist, 0, 0, c0, nbits) && Built(chgg, hist, 0, 1, c1, nbits)
      requires Built(cht, hist, 0, 2, c2, nbits) && Built(chtt, hist, 0, 3, c3, nbits)
      ensures Widths()
      ensures forall k :: 0 <= k < numg ==>
                && chg[k].clength == c0 && chgg[k].clength == c1 && cht[k].clength == c2 && chtt[k].clength == c3
                && chg[k].nbits == chgg[k].nbits == cht[k].nbits == chtt[k].nbits == nbits
    {
    }

    ghost function Registers(): set<CompressedHistory> {
      (set r | r in chg) + (set r | r in chgg) + (set r | r in cht) + (set r | r in chtt)
    }

    ghost function Path(): seq<Word>
      requires ph.Valid()
      reads ph, ph.h
    {
      ph.Contents()
    }

    /** A register is well formed and folds the path. */
    ghost predicate Registered(r: CompressedHistory, path: seq<Word>)
      reads r
    {
      r.Valid() && r.clength > 1 && r.olength < |path| && r.Folds(path)
    }

    ghost function Four(k: nat): set<CompressedHistory>
      requires |chg| == |chgg| == |cht| == |chtt| == numg && k < numg
    {
      {chg[k], chgg[k], cht[k], chtt[k]}
    }

    lemma FourApart(i: nat)
      requires Slots() && i < numg
      ensures forall k :: 0 <= k < numg && k != i ==> Four(k) !! Four(i)
      ensures Four(i) <= Registers()
    {
    }

    ghost predicate Banks(k: nat, path: seq<Word>)
      requires |chg| == |chgg| == |cht| == |chtt| == numg && k < numg
      reads Four(k)
    {
      Registered(chg[k], path) && Registered(chgg[k], path) && Registered(cht[k], path) && Registered(chtt[k], path)
    }

    ghost predicate Slots() {
      && |chg| == |chgg| == |cht| == |chtt| == numg
      && forall k :: 0 <= k < numg ==>
           chg[k].slot == 4 * k && chgg[k].slot == 4 * k + 1 && cht[k].slot == 4 * k + 2 && chtt[k].slot == 4 * k + 3
    }

    /** Every register equals the from-scratch fold of the path. */
    ghost predicate Valid()
      reads this, ph, ph.h, Registers()
    {
      && numg > 0 && Slots()
      && ph.Valid() && (forall k :: 0 <= k < |Path()| ==> |Path()[k]| == W)
      && forall k :: 0 <= k < numg ==> Banks(k, Path())
    }

    /** The second register of a pair is the shorter one. */
    ghost predicate Widths() {
      && |chg| == |chgg| == |cht| == |chtt| == numg
      && forall k :: 0 <= k < numg ==> chgg[k].clength <= chg[k].clength && chtt[k].clength <= cht[k].clength
    }

    function Cg(bank: nat): Word
      requires Widths() && bank < numg
      reads chg[bank]
    {
      chg[bank].comp
    }

    function Cgg(bank: nat): Word
      requires Widths() && bank < numg
      reads chgg[bank]
    {
      Shl(chgg[bank].comp, chg[bank].clength - chgg[bank].clength)
    }

    function Ct(bank: nat): Word
      requires Widths() && bank < numg
      reads cht[bank]
    {
      cht[bank].comp
    }

    function Ctt(bank: nat): Word
      requires Widths() && bank < numg
      reads chtt[bank]
    {
      Shl(chtt[bank].comp, cht[bank].clength - chtt[bank].clength)
    }

    lemma HasPath()
      requires Valid()
      ensures ph.Valid() && |Path()| > 0
    {
    }

    /** All registers of a bank are folds of the path. */
    lemma RegistersFold(bank: nat)
      requires Valid() && bank < numg
      ensures |chg| == |chgg| == |cht| == |chtt| == numg
      ensures chg[bank].olength < |Path()| && chgg[bank].olength < |Path()|
      ensures cht[bank].olength < |Path()| && chtt[bank].olength < |Path()|
      ensures chg[bank].Folds(Path()) && chgg[bank].Folds(Path()) && cht[bank].Folds(Path()) && chtt[bank].Folds(Path())
    {
      assert Banks(bank, Path());
    }

    /** The bits of the shifted registers. */
    lemma ShiftedBits(bank: nat, i: nat)
      requires Valid() && Widths() && bank < numg && i < W
      ensures |Cgg(bank)| == |Ctt(bank)| == |chg[bank].comp| == |cht[bank].comp| == W
      ensures |chgg[bank].comp| == |chtt[bank].comp| == W
      ensures var d := chg[bank].clength - chgg[bank].clength; Cgg(bank)[i] == (i >= d && chgg[bank].comp[i - d])
      ensures var d := cht[bank].clength - chtt[bank].clength; Ctt(bank)[i] == (i >= d && chtt[bank].comp[i - d])
    {
      assert Banks(bank, Path());
      hide Mask, Fold;
    }

    /** Step one register. */
    method Step(r: CompressedHistory, ghost before: seq<Word>, ghost after: seq<Word>)
      requires ph.Valid() && ph.Contents() == after && Stepped(before, after)
      requires Registered(r, before)
      modifies r`comp
      ensures Registered(r, after)
    {
      hide Next, Fold, Pushed, Mask;
      RingStep(W, before, after[0], r.nbits, r.clength, r.olength);
      r.Update(ph);
    }

    method StepBanks(k: nat, ghost before: seq<Word>, ghost after: seq<Word>)
      requires Slots() && k < numg
      requires ph.Valid() && ph.Contents() == after && Stepped(before, after) && Banks(k, before)
      modifies Four(k)`comp
      ensures Banks(k, after)
    {
      hide Registered, Stepped;
      Step(chg[k], before, after);
      Step(chgg[k], before, after);
      Step(cht[k], before, after);
      Step(chtt[k], before, after);
    }

    /** Banks whose registers have not changed. */
    twostate lemma BanksKept(path: seq<Word>)
      requires Slots() && forall k :: 0 <= k < numg ==> old(Banks(k, path))
      requires forall k :: 0 <= k < numg ==> unchanged(chg[k], chgg[k], cht[k], chtt[k])
      ensures forall k :: 0 <= k < numg ==> Banks(k, path)
    {
      hide Registered;
      forall k | 0 <= k < numg ensures Banks(k, path) {
        assert old(Banks(k, path));
      }
    }

    /** The entry made of a target address and a direction. */
    function PathEntry(targetpc: Word, taken: bool): (e: Word)
      requires |targetpc| == 64
      ensures |e| == W
    {
      Resize(Or(Shl(targetpc, 1), if taken then OneBit(64, 0) else Zero(64)), W)
    }

    lemma PathEntryBits(targetpc: Word, taken: bool)
      requires |targetpc| == 64
      ensures var e := PathEntry(targetpc, taken);
              e[0] == taken && forall j :: 0 <= j < W - 1 ==> e[j + 1] == targetpc[j]
    {
    }

    method Update(targetpc: Word, taken: bool)
      requires Valid() && |targetpc| == 64
      modifies ph, ph.h, Registers()`comp
      ensures Valid() && ph.Valid() && Path() == Pushed(old(Path()), PathEntry(targetpc, taken))
      ensures |Path()| == |old(Path())| && Path()[1..] == old(Path())[..|Path()| - 1]
      ensures |Path()[0]| == W && Path()[0][0] == taken
      ensures forall j :: 0 <= j < W - 1 ==> Path()[0][j + 1] == targetpc[j]
    {
      hide Registered, Registers, Pushed, PathEntry;
      PathEntryBits(targetpc, taken);
      ghost var before := Path();
      ph.Insert(PathEntry(targetpc, taken));
      BanksKept(before);
      ghost var after := Path();
      PushStepped(before, PathEntry(targetpc, taken));
      for i := 0 to numg
        invariant ph.Valid() && Path() == after
        invariant forall k :: 0 <= k < i ==> Banks(k, after)
        invariant forall k :: i <= k < numg ==> Banks(k, before)
      {
        FourApart(i);
        StepBanks(i, before, after);
      }
    }
  }

  /** One entry has been pushed onto the ring. */
  ghost predicate Stepped(before: seq<Word>, after: seq<Word>) {
    && |before| > 0 && |after| == |before| && after == Pushed(before, after[0])
    && forall k :: 0 <= k < |after| ==> |after[k]| == W
  }

  lemma PushStepped(before: seq<Word>, e: Word)
    requires |before| > 0 && |e| == W && forall k :: 0 <= k < |before| ==> |before[k]| == W
    ensures Stepped(before, Pushed(before, e)) && Pushed(before, e)[0] == e
    ensures Pushed(before, e)[1..] == before[..|before| - 1]
    ensures forall k :: 0 <= k < |before| ==> |Pushed(before, e)[k]| == W
  {
  }
}
