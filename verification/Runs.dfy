/** Sorted runs of cell numbers, without the heap: cells are numbered by their position in the
    list before the sort, so that stability is a comparison of numbers. */
module Runs {
  import opened Cells
  import opened Comparators

  type Views = seq<Option<View>>

  ghost predicate Known(v: Views, x: nat) {
    x < |v| && v[x].Some?
  }

  /** x belongs before y: a strictly smaller key, or an equal key and an earlier position. */
  ghost predicate Before(c: Cmp, v: Views, x: nat, y: nat) {
    && Known(v, x) && Known(v, y)
    && Le(c, v[x].value, v[y].value)
    && (Le(c, v[y].value, v[x].value) ==> x < y)
  }

  ghost predicate StableSorted(c: Cmp, v: Views, s: seq<nat>) {
    forall i, j :: 0 <= i < j < |s| ==> Before(c, v, s[i], s[j])
  }


  ghost predicate IsPermutation(s: seq<nat>, n: nat) {
    && |s| == n
    && (forall i :: 0 <= i < |s| ==> s[i] < n)
    && (forall i, j :: 0 <= i < j < |s| ==> s[i] != s[j])
  }

  ghost function IndexOf(s: seq<nat>, j: nat): (k: nat)
    requires j in s
    ensures k < |s| && s[k] == j
  {
    if s[0] == j then 0 else 1 + IndexOf(s[1..], j)
  }

  // ----- Merging two runs

  ghost predicate AllBelow(a: seq<nat>, b: seq<nat>) {
    forall x, y :: x in a && y in b ==> x < y
  }

  /** m is the merge of the first a cells of run A with the first b cells of run B. */
  ghost predicate Merging(c: Cmp, v: Views, A: seq<nat>, B: seq<nat>, a: nat, b: nat, m: seq<nat>) {
    && a <= |A| && b <= |B| && |m| == a + b
    && StableSorted(c, v, A) && StableSorted(c, v, B) && StableSorted(c, v, m)
    && AllBelow(A, B)
    && (forall k, i :: 0 <= k < |m| && a <= i < |A| ==> Before(c, v, m[k], A[i]))
    && (forall k, j :: 0 <= k < |m| && b <= j < |B| ==> Before(c, v, m[k], B[j]))
    && (forall k :: 0 <= k < |m| ==> m[k] in A || m[k] in B)
  }

  lemma TakeFromFirst(c: Cmp, v: Views, A: seq<nat>, B: seq<nat>, a: nat, b: nat, m: seq<nat>)
    requires TotalPreorder(c) && Merging(c, v, A, B, a, b, m)
    requires a < |A|
    requires b < |B| ==> Known(v, A[a]) && Known(v, B[b]) && Le(c, v[A[a]].value, v[B[b]].value)
    ensures Merging(c, v, A, B, a + 1, b, m + [A[a]])
  {
    var m' := m + [A[a]];
    forall k, j | 0 <= k < |m'| && b <= j < |B| ensures Before(c, v, m'[k], B[j]) {
      if k == |m| {
        assert A[a] in A && B[j] in B;
        assert j == b || Before(c, v, B[b], B[j]);
      }
    }
  }

  lemma TakeFromSecond(c: Cmp, v: Views, A: seq<nat>, B: seq<nat>, a: nat, b: nat, m: seq<nat>)
    requires TotalPreorder(c) && Merging(c, v, A, B, a, b, m)
    requires b < |B|
    requires a < |A| ==> Known(v, A[a]) && Known(v, B[b]) && !Le(c, v[A[a]].value, v[B[b]].value)
    ensures Merging(c, v, A, B, a, b + 1, m + [B[b]])
  {
    var m' := m + [B[b]];
    forall k, i | 0 <= k < |m'| && a <= i < |A| ensures Before(c, v, m'[k], A[i]) {
      if k == |m| {
        assert i == a || Before(c, v, A[a], A[i]);
        assert Le(c, v[B[b]].value, v[A[a]].value);
      }
    }
  }

  /** Comparisons make more keys known and change no known key. */
  ghost predicate Extends(v: Views, v': Views) {
    |v'| == |v| && forall i :: 0 <= i < |v| && v[i].Some? ==> v'[i] == v[i]
  }

  lemma SortedStays(c: Cmp, v: Views, v': Views, s: seq<nat>)
    requires Extends(v, v') && StableSorted(c, v, s)
    ensures StableSorted(c, v', s)
  {
    forall i, j | 0 <= i < j < |s| ensures Before(c, v', s[i], s[j]) {
      assert Before(c, v, s[i], s[j]);
    }
  }

  lemma MergingStays(c: Cmp, v: Views, v': Views, A: seq<nat>, B: seq<nat>, a: nat, b: nat, m: seq<nat>)
    requires Extends(v, v') && Merging(c, v, A, B, a, b, m)
    ensures Merging(c, v', A, B, a, b, m)
  {
    SortedStays(c, v, v', A);
    SortedStays(c, v, v', B);
    SortedStays(c, v, v', m);
    forall k, i | 0 <= k < |m| && a <= i < |A| ensures Before(c, v', m[k], A[i]) {
      assert Before(c, v, m[k], A[i]);
    }
    forall k, j | 0 <= k < |m| && b <= j < |B| ensures Before(c, v', m[k], B[j]) {
      assert Before(c, v, m[k], B[j]);
    }
  }

  // ----- A pass over the list

  /** A finished run: of one cell, or sorted with every cell compared at least once. */
  ghost predicate GoodRun(c: Cmp, v: Views, compared: set<nat>, run: seq<nat>) {
    && run != []
    && StableSorted(c, v, run)
    && (|run| == 1 || forall x :: x in run ==> x in compared)
  }

  ghost predicate Ordered(runs: seq<seq<nat>>) {
    forall j, k :: 0 <= j < k < |runs| ==> AllBelow(runs[j], runs[k])
  }

  /** Runs of w cells, the last one possibly shorter, unless more cells follow. */
  ghost predicate Width(runs: seq<seq<nat>>, w: nat, more: bool) {
    && (forall k :: 0 <= k < |runs| ==> |runs[k]| <= w)
    && (forall k :: 0 <= k < |runs| && (more || k < |runs| - 1) ==> |runs[k]| == w)
  }

  ghost predicate GoodRuns(c: Cmp, v: Views, compared: set<nat>, runs: seq<seq<nat>>) {
    forall k :: 0 <= k < |runs| ==> GoodRun(c, v, compared, runs[k])
  }

  /** In the middle of a pass: done holds merged runs of 2w cells, todo runs of w cells. */
  ghost predicate Passing(c: Cmp, v: Views, compared: set<nat>, w: nat, done: seq<seq<nat>>, todo: seq<seq<nat>>) {
    && GoodRuns(c, v, compared, done) && GoodRuns(c, v, compared, todo)
    && Width(done, 2 * w, todo != []) && Width(todo, w, false)
    && Ordered(done + todo)
  }

  ghost function Flat(runs: seq<seq<nat>>): seq<nat> {
    if runs == [] then [] else runs[0] + Flat(runs[1..])
  }

  lemma {:induction false} FlatAppend(runs: seq<seq<nat>>, r: seq<nat>)
    ensures Flat(runs + [r]) == Flat(runs) + r
  {
    if runs == [] {
      assert runs + [r] == [r] && [r][1..] == [];
    } else {
      FlatAppend(runs[1..], r);
      assert (runs + [r])[1..] == runs[1..] + [r];
    }
  }

  ghost function Second(todo: seq<seq<nat>>): seq<nat>
    requires todo != []
  {
    if |todo| == 1 then [] else todo[1]
  }

  ghost function Rest(todo: seq<seq<nat>>): seq<seq<nat>>
    requires todo != []
  {
    if |todo| == 1 then [] else todo[2..]
  }

  lemma FlatParts(todo: seq<seq<nat>>)
    requires todo != []
    ensures Flat(todo) == todo[0] + (Second(todo) + Flat(Rest(todo)))
  {
    if |todo| > 1 {
      assert todo[1..][1..] == todo[2..];
    } else {
      assert todo[1..] == [];
    }
  }

  lemma PassStays(c: Cmp, v: Views, v': Views, s: set<nat>, s': set<nat>, w: nat, done: seq<seq<nat>>,
          todo: seq<seq<nat>>)
    requires Extends(v, v') && s <= s' && Passing(c, v, s, w, done, todo)
    ensures Passing(c, v', s', w, done, todo)
  {
    forall k | 0 <= k < |done| ensures GoodRun(c, v', s', done[k]) { SortedStays(c, v, v', done[k]); }
    forall k | 0 <= k < |todo| ensures GoodRun(c, v', s', todo[k]) { SortedStays(c, v, v', todo[k]); }
  }

  ghost predicate DrawnFrom(m: seq<nat>, A: seq<nat>, B: seq<nat>) {
    forall x :: x in m ==> x in A || x in B
  }

  lemma MergeAbove(r: seq<nat>, A: seq<nat>, B: seq<nat>, m: seq<nat>)
    requires AllBelow(r, A) && AllBelow(r, B) && DrawnFrom(m, A, B)
    ensures AllBelow(r, m)
  {
  }

  lemma MergeBelow(r: seq<nat>, A: seq<nat>, B: seq<nat>, m: seq<nat>)
    requires AllBelow(A, r) && AllBelow(B, r) && DrawnFrom(m, A, B)
    ensures AllBelow(m, r)
  {
  }

  lemma OrderedStep(done: seq<seq<nat>>, todo: seq<seq<nat>>, m: seq<nat>)
    requires Ordered(done + todo) && todo != []
    requires DrawnFrom(m, todo[0], Second(todo))
    ensures Ordered((done + [m]) + Rest(todo))
  {
    var A, B, rest := todo[0], Second(todo), Rest(todo);
    var before, after := done + todo, (done + [m]) + rest;
    var n := |done|;
    assert before[n] == A && (|todo| > 1 ==> before[n + 1] == B);
    assert forall k :: n < k < |after| ==> after[k] == before[k + 1];
    assert forall j :: 0 <= j < n ==> after[j] == before[j];
    forall j, k | 0 <= j < k < |after| ensures AllBelow(after[j], after[k]) {
      var j', k' := if j > n then j + 1 else j, if k > n then k + 1 else k;
      assert AllBelow(before[j'], before[k']);
      if j == n {
        assert AllBelow(before[n + 1], before[k']);
        MergeBelow(after[k], A, B, m);
      } else if k == n {
        assert |todo| > 1 ==> AllBelow(before[j], before[n + 1]);
        MergeAbove(after[j], A, B, m);
      }
    }
  }

  /** Replacing the first two runs by their merge. */
  lemma PassStep(c: Cmp, v: Views, s: set<nat>, w: nat, done: seq<seq<nat>>, todo: seq<seq<nat>>, m: seq<nat>)
    requires Passing(c, v, s, w, done, todo) && todo != []
    requires |m| == |todo[0]| + |Second(todo)| && DrawnFrom(m, todo[0], Second(todo))
    requires GoodRun(c, v, s, m)
    ensures Passing(c, v, s, w, done + [m], Rest(todo))
  {
    OrderedStep(done, todo, m);
    var rest := Rest(todo);
    assert rest != [] ==> |todo[0]| == w && |todo[1]| == w;
    assert forall k :: 0 <= k < |rest| ==> rest[k] == todo[k + 2];
  }
}
