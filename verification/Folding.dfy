/** Folding a long history into few bits: from scratch, and one branch at a time. */
module Folding {
  import opened Bits
  import opened Modular

  /** The bit that a rotation to the left by r in c bits moves to position b. */
  function Source(b: nat, r: nat, c: nat): (k: nat)
    requires b < c && r < c
    ensures k < c
  {
    if b >= r then b - r else b - r + c
  }

  /** Bit k of a history entry of which only the low nbits count. */
  function EntryBit(e: Word, nbits: nat, k: nat): bool {
    k < nbits && k < |e| && e[k]
  }

  /** Bit b of the fold: the XOR of entry j, cut to nbits bits and rotated left by j modulo c, over
      the n most recent entries. */
  ghost function FoldBit(hist: seq<Word>, nbits: nat, c: nat, n: nat, b: nat): bool
    requires n <= |hist| && b < c
  {
    n > 0 && FoldBit(hist, nbits, c, n - 1, b) != EntryBit(hist[n - 1], nbits, Source(b, (n - 1) % c, c))
  }

  /** The fold as a register of w bits. */
  ghost function Fold(w: nat, hist: seq<Word>, nbits: nat, c: nat, n: nat): Word
    requires n <= |hist|
  {
    seq(w, b requires 0 <= b => b < c && FoldBit(hist, nbits, c, n, b))
  }

  /** The register after one more entry comes in and one goes out: rotate left by one, XOR the new
      entry, XOR the old entry rotated left by n modulo c. */
  ghost function Next(comp: Word, nbits: nat, c: nat, n: nat, newest: Word, oldest: Word): Word
    requires c <= |comp|
  {
    seq(|comp|, b requires 0 <= b < |comp| =>
      b < c && ((comp[Source(b, if c == 1 then 0 else 1, c)] != EntryBit(newest, nbits, b))
                != EntryBit(oldest, nbits, Source(b, n % c, c))))
  }

  /** One more rotation by one place. */
  lemma SourceNext(b: nat, n: nat, c: nat)
    requires b < c && c >= 2
    ensures Source(Source(b, 1, c), n % c, c) == Source(b, (n + 1) % c, c)
  {
    ModNext(n, c);
    SourceTwice(b, n % c, c);
    if n % c == c - 1 { SourceOfZero(b, c); }
  }

  lemma SourceTwice(b: nat, r: nat, c: nat)
    requires b < c && r < c && c >= 2
    ensures Source(Source(b, 1, c), r, c) == Source(b, if r == c - 1 then 0 else r + 1, c)
  {
  }

  lemma SourceOfZero(b: nat, c: nat)
    requires b < c
    ensures Source(b, 0, c) == b && 0 % c == 0
  {
  }

  lemma {:induction false} FoldBitStep(hist: seq<Word>, newest: Word, nbits: nat, c: nat, n: nat, b: nat)
    requires 1 <= n <= |hist| && b < c && c >= 2
    ensures FoldBit([newest] + hist, nbits, c, n, b) ==
            ((FoldBit(hist, nbits, c, n, Source(b, 1, c)) != EntryBit(newest, nbits, b))
             != EntryBit(hist[n - 1], nbits, Source(b, n % c, c)))
  {
    hide Source;
    var hist' := [newest] + hist;
    SourceNext(b, n - 1, c);
    if n == 1 {
      SourceOfZero(b, c);
      assert FoldBit(hist', nbits, c, 0, b) == false;
      assert FoldBit(hist, nbits, c, 0, Source(b, 1, c)) == false;
    } else {
      FoldBitStep(hist, newest, nbits, c, n - 1, b);
      assert hist'[n - 1] == hist[n - 2];
    }
  }

  /** Stepping the register is folding the longer history. */
  lemma NextIsFold(w: nat, hist: seq<Word>, newest: Word, nbits: nat, c: nat, n: nat)
    requires 1 <= n <= |hist| && 2 <= c <= w
    ensures Next(Fold(w, hist, nbits, c, n), nbits, c, n, newest, hist[n - 1]) == Fold(w, [newest] + hist, nbits, c, n)
  {
    hide FoldBit;
    forall b: nat | b < c
      ensures FoldBit([newest] + hist, nbits, c, n, b) ==
              ((FoldBit(hist, nbits, c, n, Source(b, 1, c)) != EntryBit(newest, nbits, b))
               != EntryBit(hist[n - 1], nbits, Source(b, n % c, c)))
    {
      FoldBitStep(hist, newest, nbits, c, n, b);
    }
  }

  /** Only the n most recent entries matter. */
  lemma {:induction false} FoldBitPrefix(a: seq<Word>, b: seq<Word>, nbits: nat, c: nat, n: nat, k: nat)
    requires n <= |a| && n <= |b| && k < c && a[..n] == b[..n]
    ensures FoldBit(a, nbits, c, n, k) == FoldBit(b, nbits, c, n, k)
  {
    if n > 0 {
      assert a[n - 1] == a[..n][n - 1] && b[n - 1] == b[..n][n - 1];
      assert a[..n - 1] == a[..n][..n - 1] && b[..n - 1] == b[..n][..n - 1];
      FoldBitPrefix(a, b, nbits, c, n - 1, k);
    }
  }

  lemma FoldPrefix(w: nat, a: seq<Word>, b: seq<Word>, nbits: nat, c: nat, n: nat)
    requires n <= |a| && n <= |b| && a[..n] == b[..n]
    ensures Fold(w, a, nbits, c, n) == Fold(w, b, nbits, c, n)
  {
    forall k: nat | k < c ensures FoldBit(a, nbits, c, n, k) == FoldBit(b, nbits, c, n, k) {
      FoldBitPrefix(a, b, nbits, c, n, k);
    }
  }

  /** Only the low c bits may be set. */
  ghost predicate Narrow(x: Word, c: nat) {
    forall k :: c <= k < |x| ==> !x[k]
  }

  /** The fold of an empty history, which is where every register starts. */
  lemma FoldOfNothing(w: nat, hist: seq<Word>, nbits: nat, c: nat, n: nat)
    requires n <= |hist| && forall j, k :: 0 <= j < n && 0 <= k < |hist[j]| ==> !hist[j][k]
    ensures Fold(w, hist, nbits, c, n) == Zero(w)
  {
    hide FoldBit;
    forall b: nat | b < c ensures !FoldBit(hist, nbits, c, n, b) {
      FoldOfZeros(hist, nbits, c, n, b);
    }
  }

  lemma {:induction false} FoldOfZeros(hist: seq<Word>, nbits: nat, c: nat, n: nat, b: nat)
    requires n <= |hist| && b < c && forall j, k :: 0 <= j < n && 0 <= k < |hist[j]| ==> !hist[j][k]
    ensures !FoldBit(hist, nbits, c, n, b)
  {
    if n > 0 { FoldOfZeros(hist, nbits, c, n - 1, b); }
  }

  /** A ring whose newest entry is first: pushing an entry drops the oldest one. */
  function Pushed(hist: seq<Word>, newest: Word): (r: seq<Word>)
    requires |hist| > 0
    ensures |r| == |hist|
  {
    [newest] + hist[..|hist| - 1]
  }

  /** One step over a ring that still holds the outgoing entry. */
  lemma RingStep(w: nat, hist: seq<Word>, newest: Word, nbits: nat, c: nat, n: nat)
    requires n < |hist| && 2 <= c <= w
    ensures Next(Fold(w, hist, nbits, c, n), nbits, c, n, newest, Pushed(hist, newest)[n])
            == Fold(w, Pushed(hist, newest), nbits, c, n)
  {
    var hist' := Pushed(hist, newest);
    if n == 0 {
      EmptyFoldStays(w, hist, newest, nbits, c);
      assert Fold(w, hist, nbits, c, 0) == Fold(w, hist', nbits, c, 0);
    } else {
      hide Next, Fold;
      NextIsFold(w, hist, newest, nbits, c, n);
      assert ([newest] + hist)[..n] == hist'[..n];
      assert hist'[n] == hist[n - 1];
      FoldPrefix(w, [newest] + hist, hist', nbits, c, n);
    }
  }

  /** With a history of length zero the entry that comes in goes out at once. */
  lemma EmptyFoldStays(w: nat, hist: seq<Word>, e: Word, nbits: nat, c: nat)
    requires 2 <= c <= w
    ensures Next(Fold(w, hist, nbits, c, 0), nbits, c, 0, e, e) == Fold(w, hist, nbits, c, 0)
  {
    assert 0 % c == 0;
    var f := Fold(w, hist, nbits, c, 0);
    forall b: nat | b < c ensures Source(b, 0 % c, c) == b && !f[Source(b, 1, c)] {
    }
  }
}
