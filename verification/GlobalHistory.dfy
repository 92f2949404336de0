/** The global history ring of the GEHL tables, and three codings of the folded-history step. */
module GlobalHistory {
  import opened Bits
  import opened Folding

  const HISTBUFFERLENGTH := 0x40000
  const W := 32

  /** Ring entries, newest first, when PT points at the newest one. */
  ghost function Ring(h: seq<Word>, pt: int): (s: seq<Word>)
    requires |h| == HISTBUFFERLENGTH
    ensures |s| == |h|
  {
    seq(|h|, j requires 0 <= j < |h| => h[(pt + j) % HISTBUFFERLENGTH])
  }

  /** Writing below the pointer pushes an entry. */
  lemma RingWrite(h: seq<Word>, pt: int, e: Word)
    requires |h| == HISTBUFFERLENGTH
    ensures Ring(h[(pt - 1) % HISTBUFFERLENGTH := e], pt - 1) == Pushed(Ring(h, pt), e)
  {
  }

  /** Entries of at most nbits bits. */
  ghost predicate Entry(e: Word, nbits: nat) {
    |e| == 8 && forall k :: nbits <= k < 8 ==> !e[k]
  }

  // ----- The three codings of one step

  /** compressed_history: rotate, then XOR the incoming and the rotated outgoing entry. */
  function StepRotate(comp: Word, c: nat, n: nat, newest: Word, oldest: Word): Word
    requires 0 < c <= |comp|
  {
    Xor(Xor(RotateIn(comp, c, 1), Resize(newest, |comp|)), RotateIn(Resize(oldest, |comp|), c, n % c))
  }

  function RotateIn(x: Word, c: nat, m: nat): (r: Word)
    requires m <= c <= |x|
    ensures |r| == |x|
  {
    And(Or(Shl(x, m), Shr(x, c - m)), Mask(|x|, c))
  }

  /** folded_history: shift, XOR both entries unrotated but shifted, fold the overflow back, mask. */
  function StepShift(comp: Word, c: nat, n: nat, newest: Word, oldest: Word): Word
    requires 0 < c <= |comp|
  {
    var x := Xor(Xor(Shl(comp, 1), Resize(newest, |comp|)), Shl(Resize(oldest, |comp|), n % c));
    And(Xor(x, Shr(x, c)), Mask(|x|, c))
  }

  /** compute_history: shift and add the incoming bit, fold bit c back, XOR the shifted outgoing bit, mask. */
  function StepAdd(comp: Word, c: nat, n: nat, newest: Word, oldest: Word): Word
    requires 0 < c <= |comp|
  {
    var w := |comp|;
    var x := Add(Shl(comp, 1), Resize(newest, w));
    var y := Xor(x, Shr(And(x, OneBit(w, c)), c));
    And(Xor(y, Shl(Resize(oldest, w), n % c)), Mask(w, c))
  }

  function Carry(a: Word, b: Word, k: nat): bool
    requires k <= |a| == |b|
  {
    k > 0 && var d := Carry(a, b, k - 1); (a[k - 1] && b[k - 1]) || (d && (a[k - 1] || b[k - 1]))
  }

  /** Addition modulo 2 to the width of the words. */
  function Add(a: Word, b: Word): Word
    requires |a| == |b|
  {
    seq(|a|, k requires 0 <= k < |a| => (a[k] != b[k]) != Carry(a, b, k))
  }

  lemma {:induction false} NoCarry(a: Word, b: Word, k: nat)
    requires k <= |a| == |b| && forall i :: 0 <= i < |a| ==> !(a[i] && b[i])
    ensures !Carry(a, b, k)
  {
    if k > 0 { NoCarry(a, b, k - 1); }
  }

  /** Adding one bit into an empty place is an XOR. */
  lemma AddIsXor(a: Word, b: Word)
    requires |a| == |b| && forall i :: 0 <= i < |a| ==> !(a[i] && b[i])
    ensures Add(a, b) == Xor(a, b)
  {
    forall k | 0 <= k < |a| ensures !Carry(a, b, k) {
      NoCarry(a, b, k);
    }
  }

  /** The rotating step is Next. */
  lemma RotateIsNext(comp: Word, nbits: nat, c: nat, n: nat, newest: Word, oldest: Word)
    requires 2 <= c <= |comp| && nbits <= c && Narrow(comp, c) && Entry(newest, nbits) && Entry(oldest, nbits)
    ensures StepRotate(comp, c, n, newest, oldest) == Next(comp, nbits, c, n, newest, oldest)
  {
    hide RotateIn, Source;
    RotateBits(comp, c, 1);
    var o := Resize(oldest, |comp|);
    RotateBits(o, c, n % c);
    assert forall k :: 0 <= k < c ==> o[k] == EntryBit(oldest, nbits, k);
  }

  lemma RotateBits(x: Word, c: nat, m: nat)
    requires 0 <= m < c <= |x| && Narrow(x, c)
    ensures forall k :: 0 <= k < c ==> RotateIn(x, c, m)[k] == x[Source(k, m, c)]
    ensures Narrow(RotateIn(x, c, m), c)
  {
  }

  /** The shifting step is Next, provided the register word has room for a shifted entry. */
  lemma ShiftIsNext(comp: Word, nbits: nat, c: nat, n: nat, newest: Word, oldest: Word)
    requires 2 <= c && nbits <= c && c + nbits <= |comp| && c < |comp|
    requires Narrow(comp, c) && Entry(newest, nbits) && Entry(oldest, nbits)
    ensures StepShift(comp, c, n, newest, oldest) == Next(comp, nbits, c, n, newest, oldest)
  {
    hide StepShift, Next, Narrow, Entry;
    StepWidths(comp, nbits, c, n, newest, oldest);
    forall b | 0 <= b < |comp|
      ensures StepShift(comp, c, n, newest, oldest)[b] == Next(comp, nbits, c, n, newest, oldest)[b]
    {
      StepBit(comp, nbits, c, n, newest, oldest, b);
    }
  }

  lemma StepWidths(comp: Word, nbits: nat, c: nat, n: nat, newest: Word, oldest: Word)
    requires 0 < c <= |comp|
    ensures |StepShift(comp, c, n, newest, oldest)| == |Next(comp, nbits, c, n, newest, oldest)| == |comp|
  {
  }

  /** One bit of the shifting step. */
  lemma StepBit(comp: Word, nbits: nat, c: nat, n: nat, newest: Word, oldest: Word, b: nat)
    requires 2 <= c && nbits <= c && c + nbits <= |comp| && c < |comp| && b < |comp|
    requires Narrow(comp, c) && Entry(newest, nbits) && Entry(oldest, nbits)
    requires |StepShift(comp, c, n, newest, oldest)| == |Next(comp, nbits, c, n, newest, oldest)| == |comp|
    ensures StepShift(comp, c, n, newest, oldest)[b] == Next(comp, nbits, c, n, newest, oldest)[b]
  {
    hide Narrow, Entry, Source;
    if b < c { ShiftBit(comp, nbits, c, n % c, newest, oldest, b); }
  }

  lemma ShiftBit(comp: Word, nbits: nat, c: nat, m: nat, newest: Word, oldest: Word, k: nat)
    requires 2 <= c && nbits <= c && c + nbits <= |comp| && c < |comp| && m < c && k < c
    requires Narrow(comp, c) && Entry(newest, nbits) && Entry(oldest, nbits)
    ensures var w := |comp|;
            var x := Xor(Xor(Shl(comp, 1), Resize(newest, w)), Shl(Resize(oldest, w), m));
            (x[k] != (k + c < w && x[k + c]))
              == ((comp[Source(k, 1, c)] != EntryBit(newest, nbits, k)) != EntryBit(oldest, nbits, Source(k, m, c)))
  {
    var w := |comp|;
    var o := Shl(Resize(oldest, w), m);
    assert (o[k] != (k + c < w && o[k + c])) == EntryBit(oldest, nbits, Source(k, m, c));
    assert k + c < w && k + c < 8 ==> !newest[k + c];
    assert k + c < w ==> Shl(comp, 1)[k + c] == (k == 0 && comp[c - 1]);
  }

  /** For one-bit entries the adding step is Next as well. */
  lemma AddIsNext(comp: Word, c: nat, n: nat, newest: Word, oldest: Word)
    requires 2 <= c < |comp| && Narrow(comp, c) && Entry(newest, 1) && Entry(oldest, 1)
    ensures StepAdd(comp, c, n, newest, oldest) == Next(comp, 1, c, n, newest, oldest)
  {
    var w, m := |comp|, n % c;
    AddIsXor(Shl(comp, 1), Resize(newest, w));
    var x := Xor(Shl(comp, 1), Resize(newest, w));
    var o := Shl(Resize(oldest, w), m);
    var y := Shr(And(x, OneBit(w, c)), c);
    AddedBits(comp, c, m, newest, oldest);
    hide Entry, Narrow, Source, EntryBit;
    assert StepAdd(comp, c, n, newest, oldest) == And(Xor(Xor(x, y), o), Mask(w, c));
  }

  lemma AddedBits(comp: Word, c: nat, m: nat, newest: Word, oldest: Word)
    requires 2 <= c < |comp| && m < c && Narrow(comp, c) && Entry(newest, 1) && Entry(oldest, 1)
    ensures var w := |comp|;
            var x := Xor(Shl(comp, 1), Resize(newest, w));
            var o, y := Shl(Resize(oldest, w), m), Shr(And(x, OneBit(w, c)), c);
            forall k :: 0 <= k < c ==>
              ((x[k] != y[k]) != o[k])
              == ((comp[Source(k, 1, c)] != EntryBit(newest, 1, k)) != EntryBit(oldest, 1, Source(k, m, c)))
  {
    var w := |comp|;
    var x := Xor(Shl(comp, 1), Resize(newest, w));
    var o, y := Shl(Resize(oldest, w), m), Shr(And(x, OneBit(w, c)), c);
    assert forall k :: 0 <= k < c ==> o[k] == EntryBit(oldest, 1, Source(k, m, c));
    assert x[c] == comp[c - 1];
    assert forall k :: 0 <= k < c ==> x[k] == if k == 0 then newest[0] else comp[k - 1];
    assert forall k :: 0 <= k < w ==> y[k] == (k == 0 && x[c]);
  }

  /** All three codings give the same register for one-bit histories. */
  lemma CodingsAgree(comp: Word, c: nat, n: nat, newest: Word, oldest: Word)
    requires 2 <= c < |comp| && Narrow(comp, c) && Entry(newest, 1) && Entry(oldest, 1)
    ensures StepRotate(comp, c, n, newest, oldest) == StepShift(comp, c, n, newest, oldest)
    ensures StepShift(comp, c, n, newest, oldest) == StepAdd(comp, c, n, newest, oldest)
  {
    RotateIsNext(comp, 1, c, n, newest, oldest);
    ShiftIsNext(comp, 1, c, n, newest, oldest);
    AddIsNext(comp, c, n, newest, oldest);
  }

  // ----- Whole runs

  /** A history into which entries have been pushed one after the other. */
  function PushedAll(hist: seq<Word>, entries: seq<Word>): (r: seq<Word>)
    requires |hist| > 0
    ensures |r| == |hist|
  {
    if entries == [] then hist
    else Pushed(PushedAll(hist, entries[..|entries| - 1]), entries[|entries| - 1])
  }

  /** The newest entry comes first; what was there before lies behind. */
  lemma {:induction false} PushedAllAt(hist: seq<Word>, entries: seq<Word>, j: nat)
    requires j < |hist|
    ensures PushedAll(hist, entries)[j]
            == if j < |entries| then entries[|entries| - 1 - j] else hist[j - |entries|]
  {
    hide Pushed;
    if entries != [] {
      PushedAt(PushedAll(hist, entries[..|entries| - 1]), entries[|entries| - 1], j);
      if j > 0 { PushedAllAt(hist, entries[..|entries| - 1], j - 1); }
    }
  }

  lemma PushedAt(hist: seq<Word>, e: Word, j: nat)
    requires j < |hist|
    ensures Pushed(hist, e)[j] == if j == 0 then e else hist[j - 1]
  {
  }

  function Zeros(size: nat, w: nat): (s: seq<Word>)
    ensures |s| == size && forall k :: 0 <= k < size ==> s[k] == Zero(w)
  {
    seq(size, _ => Zero(w))
  }

  /** The register that adds, after a whole history of bits, from zero. */
  ghost function AddRun(w: nat, c: nat, n: nat, size: nat, bits: seq<Word>): (r: Word)
    requires 0 < c <= w && n < size
    ensures |r| == w
  {
    if bits == [] then Zero(w)
    else
      var hist := PushedAll(Zeros(size, 8), bits);
      StepAdd(AddRun(w, c, n, size, bits[..|bits| - 1]), c, n, hist[0], hist[n])
  }

  ghost predicate Bits1(entries: seq<Word>) {
    forall k :: 0 <= k < |entries| ==> Entry(entries[k], 1)
  }

  lemma HistoryOfBits(size: nat, bits: seq<Word>, j: nat)
    requires Bits1(bits) && j < size
    ensures Entry(PushedAll(Zeros(size, 8), bits)[j], 1)
  {
    PushedAllAt(Zeros(size, 8), bits, j);
  }

  /** Over any history of bits the adding register is the fold of the newest n of them. */
  lemma {:induction false} AddRunIsFold(w: nat, c: nat, n: nat, size: nat, bits: seq<Word>)
    requires 2 <= c < w && n < size && Bits1(bits)
    ensures AddRun(w, c, n, size, bits) == Fold(w, PushedAll(Zeros(size, 8), bits), 1, c, n)
  {
    hide StepAdd, Next, Fold, Pushed, Entry;
    if bits == [] {
      FoldOfNothing(w, Zeros(size, 8), 1, c, n);
    } else {
      var before, last := bits[..|bits| - 1], bits[|bits| - 1];
      var hist := PushedAll(Zeros(size, 8), before);
      AddRunIsFold(w, c, n, size, before);
      HistoryOfBits(size, bits, 0);
      HistoryOfBits(size, bits, n);
      FoldIsNarrow(w, hist, 1, c, n);
      PushedAllAt(Zeros(size, 8), bits, 0);
      AddIsNext(Fold(w, hist, 1, c, n), c, n, last, PushedAll(Zeros(size, 8), bits)[n]);
      RingStep(w, hist, last, 1, c, n);
    }
  }

  // ----- class folded_history

  class FoldedHistory {
    var comp: Word
    const CLENGTH: nat
    const OLENGTH: nat
    const OUTPOINT: nat

    ghost predicate Valid()
      reads this
    {
      && 7 <= CLENGTH <= W - 7 && OUTPOINT == OLENGTH % CLENGTH && OLENGTH < HISTBUFFERLENGTH
      && |comp| == W && Narrow(comp, CLENGTH)
    }

    ghost predicate Folds(hist: seq<Word>)
      reads this
    {
      OLENGTH <= |hist| && comp == Fold(W, hist, 7, CLENGTH, OLENGTH)
    }

    constructor (originalLength: nat, compressedLength: nat)
      requires 7 <= compressedLength <= W - 7 && originalLength < HISTBUFFERLENGTH
      ensures Valid() && comp == Zero(W) && CLENGTH == compressedLength && OLENGTH == originalLength
      ensures Folds(Zeros(HISTBUFFERLENGTH, 8))
    {
      comp := Zero(W);
      OLENGTH := originalLength;
      CLENGTH := compressedLength;
      OUTPOINT := originalLength % compressedLength;
      FoldOfNothing(W, Zeros(HISTBUFFERLENGTH, 8), 7, compressedLength, originalLength);
    }

    method Update(h: array<Word>, pt: int, ghost before: seq<Word>, ghost e: Word)
      requires Valid() && h.Length == HISTBUFFERLENGTH && Entries(before) && |before| == HISTBUFFERLENGTH && Entry(e, 7)
      requires Folds(before) && Ring(h[..], pt) == Pushed(before, e)
      modifies `comp
      ensures Valid() && Folds(Ring(h[..], pt))
    {
      hide Fold, Next, Source, Narrow;
      ghost var after, old_ := Ring(h[..], pt), comp;
      assert after[0] == h[pt % HISTBUFFERLENGTH] && after[OLENGTH] == h[(pt + OLENGTH) % HISTBUFFERLENGTH];
      comp := Xor(Shl(comp, 1), Resize(h[pt % HISTBUFFERLENGTH], W));
      comp := Xor(comp, Shl(Resize(h[(pt + OLENGTH) % HISTBUFFERLENGTH], W), OUTPOINT));
      comp := Xor(comp, Shr(comp, CLENGTH));
      comp := And(comp, Mask(W, CLENGTH));
      assert comp == StepShift(old_, CLENGTH, OLENGTH, after[0], after[OLENGTH]);
      assert Entry(after[OLENGTH], 7);
      ShiftIsNext(old_, 7, CLENGTH, OLENGTH, after[0], after[OLENGTH]);
      NextIsNarrow(old_, 7, CLENGTH, OLENGTH, after[0], after[OLENGTH]);
      RingStep(W, before, e, 7, CLENGTH, OLENGTH);
    }
  }

  ghost predicate Entries(hist: seq<Word>) {
    forall k :: 0 <= k < |hist| ==> Entry(hist[k], 7)
  }

  lemma NextIsNarrow(comp: Word, nbits: nat, c: nat, n: nat, newest: Word, oldest: Word)
    requires c <= |comp|
    ensures |Next(comp, nbits, c, n, newest, oldest)| == |comp| && Narrow(Next(comp, nbits, c, n, newest, oldest), c)
  {
    hide Source;
  }

  ghost function Objects(regs: seq<FoldedHistory>): set<FoldedHistory> {
    set r | r in regs
  }

  /** The ring write and the register loop of HistoryUpdate.  The pointer only ever decreases. */
  method HistoryUpdate(br: Branch, y0: int, h: array<Word>, regs: seq<FoldedHistory>) returns (y: int)
    requires |br.pc| == |br.target| == 64 && h.Length == HISTBUFFERLENGTH && Entries(Ring(h[..], y0))
    requires forall i, j :: 0 <= i < j < |regs| ==> regs[i] != regs[j]
    requires forall i :: 0 <= i < |regs| ==> regs[i].Valid() && regs[i].Folds(Ring(h[..], y0))
    modifies h, Objects(regs)`comp
    ensures Entries(Ring(h[..], y)) && Records(Ring(h[..], y)[0], br)
    ensures Ring(h[..], y)[1..] == old(Ring(h[..], y0))[..HISTBUFFERLENGTH - 1]
    ensures Ring(h[..], y) == Pushed(old(Ring(h[..], y0)), Dir(br))
    ensures forall i :: 0 <= i < |regs| ==> regs[i].Valid() && regs[i].Folds(Ring(h[..], y))
  {
    hide Pushed, Ring, Shl, Shr, Xor, Add, And;
    StepWords(br);
    var t := Resize(Add(Shl(Xor(Xor(br.target, Shr(br.target, 3)), br.pc), 1), Resize([br.taken], 64)), W);
    var dir := Resize(And(t, Mask(W, 7)), 8);
    DirRecords(br);
    ghost var before := Ring(h[..], y0);
    RingWrite(h[..], y0, dir);
    RingSize(h[..], y0);
    y := y0 - 1;
    h[y % HISTBUFFERLENGTH] := dir;
    ghost var after := Ring(h[..], y);
    PushedEntries(before, dir);
    PushedShift(before, dir);
    for i := 0 to |regs|
      invariant Ring(h[..], y) == after
      invariant forall k :: 0 <= k < i ==> regs[k].Valid() && regs[k].Folds(after)
      invariant forall k :: i <= k < |regs| ==> regs[k].Valid() && regs[k].Folds(before)
      modifies Objects(regs)`comp
    {
      regs[i].Update(h, y, before, dir);
    }
  }

  /** The start of initSC.  Its loop clears entry 0 over and over; the other entries are zero because
      the array is static. */
  method InitHistory(h: array<Word>) returns (y: int)
    requires h.Length == HISTBUFFERLENGTH && forall k :: 1 <= k < h.Length ==> h[k] == Zero(8)
    modifies h
    ensures Ring(h[..], y) == Zeros(HISTBUFFERLENGTH, 8)
  {
    hide Ring;
    for i := 0 to HISTBUFFERLENGTH
      invariant i > 0 ==> h[0] == Zero(8)
      invariant forall k :: 1 <= k < h.Length ==> h[k] == Zero(8)
    {
      h[0] := Zero(8);
    }
    y := 0;
    RingOfZeros(h[..]);
  }

  lemma RingOfZeros(h: seq<Word>)
    requires |h| == HISTBUFFERLENGTH && forall k :: 0 <= k < |h| ==> h[k] == Zero(8)
    ensures Ring(h, 0) == Zeros(HISTBUFFERLENGTH, 8)
  {
  }

  /** A resolved branch. */
  datatype Branch = Branch(pc: Word, target: Word, taken: bool)

  /** The entry that one branch writes. */
  function Dir(br: Branch): Word
    requires |br.pc| == |br.target| == 64
  {
    seq(8, i requires 0 <= i < 8 =>
      if i == 0 then br.taken else i < 7 && ((br.target[i - 1] != br.target[i + 2]) != br.pc[i - 1]))
  }

  /** Seven bits: the direction, and the XOR of low bits of the target, of the target shifted by
      three, and of the address. */
  ghost predicate Records(e: Word, br: Branch) {
    && |e| == 8 && |br.pc| == |br.target| == 64 && e[0] == br.taken && !e[7]
    && forall j :: 0 <= j < 6 ==> e[j + 1] == ((br.target[j] != br.target[j + 3]) != br.pc[j])
  }

  lemma DirRecords(br: Branch)
    requires |br.pc| == |br.target| == 64
    ensures Records(Dir(br), br) && Entry(Dir(br), 7)
  {
  }

  /** The word arithmetic comes to that entry. */
  lemma StepWords(br: Branch)
    requires |br.pc| == |br.target| == 64
    ensures var x := Xor(br.target, Shr(br.target, 3));
            && |Shr(br.target, 3)| == |x| == |Xor(x, br.pc)| == |Shl(Xor(x, br.pc), 1)| == 64
            && |Add(Shl(Xor(x, br.pc), 1), Resize([br.taken], 64))| == 64
            && Resize(And(Resize(Add(Shl(Xor(x, br.pc), 1), Resize([br.taken], 64)), W), Mask(W, 7)), 8) == Dir(br)
  {
    var x := Xor(br.target, Shr(br.target, 3));
    AddIsXor(Shl(Xor(x, br.pc), 1), Resize([br.taken], 64));
  }

  lemma PushedShift(before: seq<Word>, e: Word)
    requires |before| > 0
    ensures Pushed(before, e)[0] == e && Pushed(before, e)[1..] == before[..|before| - 1]
  {
  }

  ghost predicate Branches(us: seq<Branch>) {
    forall k :: 0 <= k < |us| ==> |us[k].pc| == |us[k].target| == 64
  }

  ghost function Dirs(us: seq<Branch>): (s: seq<Word>)
    requires Branches(us)
    ensures |s| == |us|
  {
    seq(|us|, k requires 0 <= k < |us| => Dir(us[k]))
  }

  /** From the initial ring and newly made registers, after any number of HistoryUpdate calls every
      register is the fold of its OLENGTH newest entries. */
  method UpdateAll(us: seq<Branch>, h: array<Word>, regs: seq<FoldedHistory>) returns (y: int)
    requires h.Length == HISTBUFFERLENGTH && forall k :: 1 <= k < h.Length ==> h[k] == Zero(8)
    requires Branches(us)
    requires forall i, j :: 0 <= i < j < |regs| ==> regs[i] != regs[j]
    requires forall i :: 0 <= i < |regs| ==> regs[i].Valid() && regs[i].comp == Zero(W)
    modifies h, Objects(regs)`comp
    ensures Ring(h[..], y) == PushedAll(Zeros(HISTBUFFERLENGTH, 8), Dirs(us))
    ensures forall j :: 0 <= j < HISTBUFFERLENGTH ==>
              if j < |us| then Records(Ring(h[..], y)[j], us[|us| - 1 - j]) else Ring(h[..], y)[j] == Zero(8)
    ensures forall i :: 0 <= i < |regs| ==> regs[i].Valid() && regs[i].Folds(Ring(h[..], y))
  {
    hide Pushed, Ring, Fold, Dir, Records;
    y := InitHistory(h);
    forall i | 0 <= i < |regs| ensures regs[i].Folds(Ring(h[..], y)) {
      FoldOfNothing(W, Zeros(HISTBUFFERLENGTH, 8), 7, regs[i].CLENGTH, regs[i].OLENGTH);
    }
    for k := 0 to |us|
      invariant Ring(h[..], y) == PushedAll(Zeros(HISTBUFFERLENGTH, 8), Dirs(us[..k])) && Entries(Ring(h[..], y))
      invariant forall i :: 0 <= i < |regs| ==> regs[i].Valid() && regs[i].Folds(Ring(h[..], y))
    {
      MoreDirs(us, k);
      y := HistoryUpdate(us[k], y, h, regs);
    }
    assert us[..|us|] == us;
    RecordsAt(us);
  }

  lemma MoreDirs(us: seq<Branch>, k: nat)
    requires k < |us| && Branches(us)
    ensures PushedAll(Zeros(HISTBUFFERLENGTH, 8), Dirs(us[..k + 1]))
            == Pushed(PushedAll(Zeros(HISTBUFFERLENGTH, 8), Dirs(us[..k])), Dir(us[k]))
  {
    hide Pushed;
    var d := Dirs(us[..k + 1]);
    assert d[..|d| - 1] == Dirs(us[..k]);
  }

  lemma RecordsAt(us: seq<Branch>)
    requires Branches(us)
    ensures var ring := PushedAll(Zeros(HISTBUFFERLENGTH, 8), Dirs(us));
            forall j :: 0 <= j < HISTBUFFERLENGTH ==>
              if j < |us| then Records(ring[j], us[|us| - 1 - j]) else ring[j] == Zero(8)
  {
    hide PushedAll, Records, Dir;
    var ring := PushedAll(Zeros(HISTBUFFERLENGTH, 8), Dirs(us));
    forall j: nat | j < HISTBUFFERLENGTH
      ensures if j < |us| then Records(ring[j], us[|us| - 1 - j]) else ring[j] == Zero(8)
    {
      PushedAllAt(Zeros(HISTBUFFERLENGTH, 8), Dirs(us), j);
      if j < |us| { DirRecords(us[|us| - 1 - j]); }
    }
  }

  lemma RingSize(h: seq<Word>, pt: int)
    requires |h| == HISTBUFFERLENGTH
    ensures |Ring(h, pt)| == |h|
  {
  }

  lemma PushedEntries(before: seq<Word>, e: Word)
    requires Entries(before) && |before| > 0 && Entry(e, 7)
    ensures Entries(Pushed(before, e))
  {
  }

  // ----- compute_history

  class CompressedHist {
    var compHist: Word
    const geomLength: nat
    const targetLength: nat
    constructor (geom: nat, target: nat)
      ensures compHist == Zero(64) && geomLength == geom && targetLength == target
      ensures forall size: nat | geom < size :: 0 < target ==> compHist == Fold(64, Zeros(size, 8), 1, target, geom)
    {
      geomLength, targetLength, compHist := geom, target, Zero(64);
      forall size: nat | geom < size && 0 < target ensures Zero(64) == Fold(64, Zeros(size, 8), 1, target, geom) {
        FoldOfNothing(64, Zeros(size, 8), 1, target, geom);
      }
    }
  }

  /** Fold the one-bit history ghr, whose newest bit is ghr[0]; both branches of the source do the
      same to one of the indexComp or tagComp registers. */
  method ComputeHistory(r: CompressedHist, ghr: array<Word>, ghost before: seq<Word>)
    requires 2 <= r.targetLength <= 30 && r.geomLength < ghr.Length
    requires forall k :: 0 <= k < ghr.Length ==> Entry(ghr[k], 1)
    requires |before| == ghr.Length && ghr[..] == Pushed(before, ghr[0])
    requires r.compHist == Fold(64, before, 1, r.targetLength, r.geomLength)
    modifies r`compHist
    ensures r.compHist == Fold(64, ghr[..], 1, r.targetLength, r.geomLength)
  {
    hide Next, Source, Pushed, Narrow;
    ghost var c, n, comp := r.targetLength, r.geomLength, r.compHist;
    FoldIsNarrow(64, before, 1, c, n);
    var mask := Mask(64, r.targetLength);
    var mask1 := Shl(Resize(ghr[r.geomLength], 64), r.geomLength % r.targetLength);
    var mask2 := OneBit(64, r.targetLength);
    r.compHist := Add(Shl(r.compHist, 1), Resize(ghr[0], 64));
    r.compHist := Xor(r.compHist, Shr(And(r.compHist, mask2), r.targetLength));
    r.compHist := Xor(r.compHist, mask1);
    r.compHist := And(r.compHist, mask);
    assert r.compHist == StepAdd(comp, c, n, ghr[0], ghr[n]);
    AddIsNext(comp, c, n, ghr[0], ghr[n]);
    assert ghr[..][n] == ghr[n];
    RingStep(64, before, ghr[0], 1, c, n);
  }

  /** A newly made register after any number of rounds, each of which is handed the history that a
      shift by one place leaves, is the fold of its geomLength newest bits. */
  method ComputeAll(r: CompressedHist, bits: seq<Word>, size: nat)
    requires 2 <= r.targetLength <= 30 && r.geomLength < size && Bits1(bits) && r.compHist == Zero(64)
    modifies r`compHist
    ensures r.compHist == Fold(64, PushedAll(Zeros(size, 8), bits), 1, r.targetLength, r.geomLength)
  {
    hide Fold, Pushed, Entry;
    FoldOfNothing(64, Zeros(size, 8), 1, r.targetLength, r.geomLength);
    var hist := Zeros(size, 8);
    for k := 0 to |bits|
      invariant hist == PushedAll(Zeros(size, 8), bits[..k])
      invariant r.compHist == Fold(64, hist, 1, r.targetLength, r.geomLength)
    {
      ghost var before := hist;
      hist := Pushed(hist, bits[k]);
      MoreBits(size, bits, k);
      var ghr := new Word[size](i requires 0 <= i < |hist| => hist[i]);
      assert ghr[..] == hist;
      ComputeHistory(r, ghr, before);
    }
    assert bits[..|bits|] == bits;
  }

  lemma MoreBits(size: nat, bits: seq<Word>, k: nat)
    requires k < |bits| && size > 0 && Bits1(bits)
    ensures var hist := PushedAll(Zeros(size, 8), bits[..k + 1]);
            && hist == Pushed(PushedAll(Zeros(size, 8), bits[..k]), bits[k])
            && hist[0] == bits[k] && forall j :: 0 <= j < size ==> Entry(hist[j], 1)
  {
    hide Entry;
    assert bits[..k + 1][..k] == bits[..k];
    var hist := PushedAll(Zeros(size, 8), bits[..k + 1]);
    forall j | 0 <= j < size ensures Entry(hist[j], 1) {
      HistoryOfBits(size, bits[..k + 1], j);
    }
  }

  lemma FoldIsNarrow(w: nat, hist: seq<Word>, nbits: nat, c: nat, n: nat)
    requires n <= |hist|
    ensures |Fold(w, hist, nbits, c, n)| == w && Narrow(Fold(w, hist, nbits, c, n), c)
  {
    hide FoldBit;
  }
}
