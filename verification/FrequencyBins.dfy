/** Branch frequency bins, which choose the subpath of the frequency-based predictor. */
module FrequencyBins {
  import opened Bits
  import opened Modular

  /** maxfreq shifted right n times. */
  function Halved(f: nat, n: nat): nat {
    if n == 0 then f else Halved(f, n - 1) / 2
  }

  lemma {:induction false} HalvedIsQuotient(f: nat, n: nat)
    ensures Halved(f, n) == f / Pow2(n)
  {
    if n > 0 {
      HalvedIsQuotient(f, n - 1);
      HalfOfQuotient(f, Pow2(n - 1));
    }
  }

  lemma HalfOfQuotient(f: nat, p: nat)
    requires p >= 1
    ensures f / p / 2 == f / (2 * p)
  {
    var q, r := f / p, f % p;
    Remainder(f, p);
    var h := q / 2;
    Split(q, p, h);
    DivModUnique(f, 2 * p, h, if q == 2 * h then r else p + r);
  }

  lemma Remainder(f: nat, p: nat)
    requires p >= 1
    ensures f == f / p * p + f % p && f % p < p
  {
  }

  lemma Split(q: nat, p: nat, h: nat)
    requires q == 2 * h || q == 2 * h + 1
    ensures q * p == h * (2 * p) + (if q == 2 * h then 0 else p)
  {
    assert 2 * h * p == h * (2 * p);
    assert q == 2 * h + 1 ==> q * p == 2 * h * p + p;
  }

  function Threshold(maxfreq: nat, bin: nat): int {
    maxfreq / Pow2(bin + 1)
  }

  /** Bin b is the first whose threshold, a power of two below maxfreq, the count reaches; counts
      below all thresholds go to the last bin. */
  ghost predicate Binned(bfreq: nat, maxfreq: nat, nbins: nat, b: nat) {
    && b < nbins
    && (forall i: nat :: i < b ==> bfreq < Threshold(maxfreq, i))
    && (b < nbins - 1 ==> bfreq >= Threshold(maxfreq, b))
  }

  /** Within one maxfreq each count has one bin, and a higher count never a later one. */
  lemma HigherCountsComeFirst(low: nat, high: nat, maxfreq: nat, nbins: nat, bLow: nat, bHigh: nat)
    requires low <= high && Binned(low, maxfreq, nbins, bLow) && Binned(high, maxfreq, nbins, bHigh)
    ensures bHigh <= bLow && (low == high ==> bLow == bHigh)
  {
    hide Threshold;
  }

  /** In terms of quotients. */
  lemma BinnedMeans(bfreq: nat, maxfreq: nat, nbins: nat, b: nat)
    requires Binned(bfreq, maxfreq, nbins, b)
    ensures b < nbins && (b == nbins - 1 || bfreq >= maxfreq / Pow2(b + 1))
    ensures forall k :: 1 <= k <= b ==> bfreq < maxfreq / Pow2(k)
  {
    hide Pow2;
    forall k | 1 <= k <= b ensures bfreq < maxfreq / Pow2(k) {
      assert bfreq < Threshold(maxfreq, k - 1);
    }
  }

  class FreqBins {
    const nbins: nat
    var maxfreq: nat
    ghost var seen: seq<int>    // the counts given to Update

    /** maxfreq is the largest count seen, or zero. */
    ghost predicate Largest()
      reads this
    {
      (forall c :: c in seen ==> c <= maxfreq) && (maxfreq == 0 || maxfreq in seen)
    }

    constructor (nb: nat)
      ensures nbins == nb && seen == [] && Largest() && maxfreq == 0
    {
      nbins, maxfreq, seen := nb, 0, [];
    }

    /** The loop over the bins; the second requires is an ASSERT of the source. */
    method Find(bfreq: int) returns (b: nat)
      requires nbins > 0
      requires bfreq >= 0
      ensures Binned(bfreq, maxfreq, nbins, b)
      ensures b < nbins && (b == nbins - 1 || bfreq >= maxfreq / Pow2(b + 1))
      ensures forall k :: 1 <= k <= b ==> bfreq < maxfreq / Pow2(k)
    {
      hide Pow2, Halved, Threshold;
      HalvedStart(maxfreq);
      var f := maxfreq;
      for i := 0 to nbins
        invariant f == Halved(maxfreq, i)
        invariant forall k: nat :: k < i ==> bfreq < Threshold(maxfreq, k)
      {
        f := f / 2;
        HalvedStep(maxfreq, i);
        if bfreq >= f {
          BinnedMeans(bfreq, maxfreq, nbins, i);
          return i;
        }
      }
      b := nbins - 1;
      BinnedMeans(bfreq, maxfreq, nbins, b);
    }

    static lemma HalvedStart(f: nat)
      ensures Halved(f, 0) == f
    {
    }

    static lemma HalvedStep(f: nat, n: nat)
      ensures Halved(f, n) / 2 == Halved(f, n + 1) == Threshold(f, n)
    {
      hide Pow2;
      HalvedIsQuotient(f, n + 1);
    }

    /** The first requires is the ASSERT. */
    method Update(bfreq: int)
      requires bfreq > maxfreq ==> bfreq == maxfreq + 1
      requires Largest()
      modifies this
      ensures seen == old(seen) + [bfreq] && Largest()
      ensures old(maxfreq) <= maxfreq <= old(maxfreq) + 1
    {
      seen := seen + [bfreq];
      assert seen[|seen| - 1] == bfreq;
      if bfreq > maxfreq {
        maxfreq := bfreq;
      }
      assert forall c :: c in old(seen) ==> c in seen;
    }

    /** Being the largest count determines maxfreq. */
    static lemma LargestAfter(counts: seq<int>, c: int, m: nat, m': nat)
      requires (forall k :: k in counts ==> k <= m) && (m == 0 || m in counts)
      requires (forall k :: k in counts + [c] ==> k <= m') && (m' == 0 || m' in counts + [c])
      ensures m' == if c > m then c else m
    {
      assert (counts + [c])[|counts|] == c && c in counts + [c];
      assert m in counts ==> m in counts + [c];
      assert m' in counts + [c] ==> m' in counts || m' == c;
    }
  }

  /** class bftable: one counter for each branch address modulo the table size. */
  class FreqTable {
    const freq: array<nat>

    constructor (size: nat)
      requires size > 0
      ensures fresh(freq) && freq.Length == size && forall k :: 0 <= k < size ==> freq[k] == 0
    {
      freq := new nat[size](_ => 0);
    }
  }

  /** No branch has been counted more than once beyond the maximum. */
  ghost predicate Bounded(t: FreqTable, b: FreqBins)
    reads b, t.freq
  {
    forall k :: 0 <= k < t.freq.Length ==> t.freq[k] <= b.maxfreq + 1
  }

  /** Count the occurrences of table entry k in a trace. */
  function Occurrences(trace: seq<nat>, size: nat, k: nat): nat
    requires size > 0
  {
    if trace == [] then 0
    else Occurrences(trace[..|trace| - 1], size, k) + (if trace[|trace| - 1] % size == k then 1 else 0)
  }

  /** The bins of a trace and the maxima before each of its branches: a branch falls into the bin of its
      earlier occurrences, and the maximum is that of the counts so far. */
  ghost predicate BinnedTrace(trace: seq<nat>, size: nat, nbins: nat, bins: seq<nat>, maxs: seq<nat>)
    requires size > 0
  {
    && |bins| <= |trace| && |maxs| == |bins| + 1 && maxs[0] == 0
    && forall i :: 0 <= i < |bins| ==>
         && Binned(Occurrences(trace[..i], size, trace[i] % size), maxs[i], nbins, bins[i])
         && maxs[i + 1] == (if Occurrences(trace[..i], size, trace[i] % size) > maxs[i]
                            then Occurrences(trace[..i], size, trace[i] % size) else maxs[i])
  }

  lemma BinnedGrows(trace: seq<nat>, size: nat, nbins: nat, bins: seq<nat>, maxs: seq<nat>, bin: nat, m: nat)
    requires size > 0 && |bins| < |trace| && BinnedTrace(trace, size, nbins, bins, maxs)
    requires var i := |bins|;
             var occ := Occurrences(trace[..i], size, trace[i] % size);
             Binned(occ, maxs[i], nbins, bin) && m == if occ > maxs[i] then occ else maxs[i]
    ensures BinnedTrace(trace, size, nbins, bins + [bin], maxs + [m])
  {
    hide Binned, Occurrences;
  }

  lemma OccurrencesOnce(trace: seq<nat>, size: nat, i: nat, k: nat)
    requires size > 0 && i < |trace|
    ensures Occurrences(trace[..i + 1], size, k)
            == Occurrences(trace[..i], size, k) + (if trace[i] % size == k then 1 else 0)
  {
    assert trace[..i + 1][..i] == trace[..i];
  }

  /** Find, update and increment for one branch. */
  method Count(t: FreqTable, b: FreqBins, k: nat) returns (bin: nat)
    requires b.nbins > 0 && k < t.freq.Length && Bounded(t, b) && b.Largest()
    modifies t.freq, b
    ensures Bounded(t, b) && b.Largest() && Binned(old(t.freq[k]), old(b.maxfreq), b.nbins, bin)
    ensures b.maxfreq == if old(t.freq[k]) > old(b.maxfreq) then old(t.freq[k]) else old(b.maxfreq)
    ensures t.freq[..] == old(t.freq[..])[k := old(t.freq[k]) + 1]
  {
    hide Binned;
    bin := b.Find(t.freq[k]);
    ghost var before, seen := b.maxfreq, b.seen;
    b.Update(t.freq[k]);
    FreqBins.LargestAfter(seen, t.freq[k], before, b.maxfreq);
    t.freq[k] := t.freq[k] + 1;
  }

  /** Find, update and increment for every branch of a trace: no ASSERT fires, every branch gets the
      bin of its earlier occurrences, and maxfreq ends up just below the highest count. */
  method Run(t: FreqTable, b: FreqBins, trace: seq<nat>) returns (bins: seq<nat>, ghost maxs: seq<nat>)
    requires t.freq.Length > 0 && b.nbins > 0 && b.maxfreq == 0 && b.Largest()
    requires forall k :: 0 <= k < t.freq.Length ==> t.freq[k] == 0
    modifies t.freq, b
    ensures Bounded(t, b)
    ensures forall k :: 0 <= k < t.freq.Length ==> t.freq[k] == Occurrences(trace, t.freq.Length, k)
    ensures b.maxfreq == 0 || exists k :: 0 <= k < t.freq.Length && t.freq[k] == b.maxfreq + 1
    ensures |bins| == |trace| && BinnedTrace(trace, t.freq.Length, b.nbins, bins, maxs)
    ensures maxs[|trace|] == b.maxfreq && forall k :: 0 <= k < |bins| ==> bins[k] < b.nbins
  {
    hide Binned, BinnedTrace, Occurrences;
    bins, maxs := [], [0];
    ghost var top: nat, size := 0, t.freq.Length;
    BinnedNothing(trace, size, b.nbins);
    for i := 0 to |trace|
      invariant Bounded(t, b) && b.Largest() && |bins| == i && |maxs| == i + 1
      invariant BinnedTrace(trace, size, b.nbins, bins, maxs) && maxs[i] == b.maxfreq
      invariant forall k :: 0 <= k < size ==> t.freq[k] == Occurrences(trace[..i], size, k)
      invariant top < size && (b.maxfreq == 0 || t.freq[top] == b.maxfreq + 1)
    {
      ghost var before := b.maxfreq;
      var k := trace[i] % t.freq.Length;
      var bin := Count(t, b, k);
      BinnedGrows(trace, size, b.nbins, bins, maxs, bin, b.maxfreq);
      bins, maxs := bins + [bin], maxs + [b.maxfreq];
      forall j | 0 <= j < size ensures t.freq[j] == Occurrences(trace[..i + 1], size, j) {
        OccurrencesOnce(trace, size, i, j);
        assert t.freq[j] == t.freq[..][j];
      }
      if b.maxfreq > before { top := k; }
    }
    assert trace[..|trace|] == trace;
    BinsInRange(trace, size, b.nbins, bins, maxs);
  }

  lemma BinsInRange(trace: seq<nat>, size: nat, nbins: nat, bins: seq<nat>, maxs: seq<nat>)
    requires size > 0 && BinnedTrace(trace, size, nbins, bins, maxs)
    ensures forall k :: 0 <= k < |bins| ==> bins[k] < nbins
  {
  }

  lemma BinnedNothing(trace: seq<nat>, size: nat, nbins: nat)
    requires size > 0
    ensures BinnedTrace(trace, size, nbins, [], [0])
    ensures forall k :: Occurrences(trace[..0], size, k) == 0
  {
  }
}
