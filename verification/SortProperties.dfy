/** What a finished sort of the CoreMark list means. */
module SortProperties {
  import opened Bits
  import opened Cells
  import opened CoreList
  import opened Comparators
  import opened Runs
  import opened MergeSort

  lemma SortedPair(c: Cmp, v: Views, s: seq<nat>, k: nat, i: nat)
    requires StableSorted(c, v, s) && k <= i < |s|
    ensures s[k] == s[i] || Before(c, v, s[k], s[i])
  {
  }

  lemma {:induction false} SamePrefix(c: Cmp, v: Views, s: seq<nat>, t: seq<nat>, n: nat, k: nat)
    requires IsPermutation(s, n) && IsPermutation(t, n)
    requires StableSorted(c, v, s) && StableSorted(c, v, t)
    requires k < n
    ensures s[k] == t[k]
    decreases k
  {
    forall j | 0 <= j < k ensures s[j] == t[j] {
      SamePrefix(c, v, s, t, n, j);
    }
    PermutationCovers(s, n);
    PermutationCovers(t, n);
    assert t[k] in s && s[k] in t;
    var i, j := IndexOf(s, t[k]), IndexOf(t, s[k]);
    assert i >= k && j >= k;
    SortedPair(c, v, s, k, i);
    SortedPair(c, v, t, k, j);
  }

  /** There is only one stably sorted order: the outcome of a sort is determined by its keys. */
  lemma StableOrderUnique(c: Cmp, v: Views, s: seq<nat>, t: seq<nat>, n: nat)
    requires IsPermutation(s, n) && IsPermutation(t, n)
    requires StableSorted(c, v, s) && StableSorted(c, v, t)
    ensures s == t
  {
    forall k | 0 <= k < n ensures s[k] == t[k] {
      SamePrefix(c, v, s, t, n, k);
    }
  }

  /** The cell words d still hold the upper bytes of d0. */
  ghost predicate UpperKept(d0: seq<W16>, d: seq<W16>) {
    |d| == |d0| && forall i :: 0 <= i < |d0| ==> d[i][8..] == d0[i][8..]
  }

  lemma ComplexKeepsUpper(c: Cmp, s0: Sums, d0: seq<W16>, log: Log)
    requires c.CmpComplex? && Effect(c, s0, d0, log)
    ensures UpperKept(d0, log.data)
  {
    forall i | 0 <= i < |d0| ensures log.data[i][8..] == d0[i][8..] {
      if log.data[i] != d0[i] {
        var j :| 0 <= j < |log.trace| && log.trace[j].cell == i;
      }
    }
  }

  /** A data sort of two or more cells with the memoising comparator.  In the end every cell is
      cached and the list is ordered, stably, by the cached keys; exactly the cells that were
      uncached have been computed, each once, from the checksum of the moment, and folded into the
      sums; upper bytes are unchanged. */
  lemma MemoisingSort(res: Results, m: Memory, s0: Sums, m': Memory, log: Log, order: seq<nat>)
    requires Sorted(CmpComplex(res), m, s0, m', log, order) && |m.next| == |m.info| >= 2
    ensures forall k :: 0 <= k < |m.info| ==> Cached(m'.data[m.info[k]]) && m.info[k] in log.touched
    ensures forall i, j :: 0 <= i < j < |order| ==>
              var x, y := Val(Key(m'.data[m.info[order[i]]])), Val(Key(m'.data[m.info[order[j]]]));
              x < y || (x == y && order[i] < order[j])
    ensures forall k :: 0 <= k < |m.info| ==> (Evaluated(log.trace, m.info[k]) <==> !Cached(m.data[m.info[k]]))
    ensures forall i, j :: 0 <= i < j < |log.trace| ==> log.trace[i].cell != log.trace[j].cell
    ensures Computed(res.kernels, s0, log.trace) && log.sums == SumsAfter(s0, log.trace)
    ensures UpperKept(m.data, m'.data)
  {
    var c, v := CmpComplex(res), NodeViews(CmpComplex(res), m');
    ComplexKeepsUpper(c, s0, m.data, log);
    AllCached(c, m, s0, m', log, order);
    forall k | 0 <= k < |m.info| ensures Evaluated(log.trace, m.info[k]) <==> !Cached(m.data[m.info[k]]) {
      assert Cached(m'.data[m.info[k]]);
    }
    forall i, j | 0 <= i < j < |order|
      ensures var x, y := Val(Key(m'.data[m.info[order[i]]])), Val(Key(m'.data[m.info[order[j]]]));
              x < y || (x == y && order[i] < order[j])
    {
      assert Before(c, v, order[i], order[j]);
    }
  }

  lemma AllCached(c: Cmp, m: Memory, s0: Sums, m': Memory, log: Log, order: seq<nat>)
    requires c.CmpComplex? && Sorted(c, m, s0, m', log, order) && |m.next| == |m.info| >= 2
    ensures forall k :: 0 <= k < |m.info| ==> Cached(m'.data[m.info[k]])
  {
    hide Effect, IsList;
    PermutationCovers(order, |m.next|);
    forall k | 0 <= k < |m.info| ensures Cached(m'.data[m.info[k]]) {
      var i := IndexOf(order, k);
      var j := if i == 0 then 1 else 0;
      assert Before(c, NodeViews(c, m'), order[if i < j then i else j], order[if i < j then j else i]);
    }
  }
}
