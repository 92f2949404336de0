/** The in-place, non-recursive merge sort of the CoreMark list. */
module MergeSort {
  import opened Cells
  import opened CoreList
  import opened Comparators
  import opened Runs

  ghost predicate Apart(s: seq<nat>, t: seq<nat>) {
    forall i, j :: 0 <= i < |s| && 0 <= j < |t| ==> s[i] != t[j]
  }

  /** The node numbers below n, split into three lists. */
  ghost predicate Parts(n: nat, out: seq<nat>, p: seq<nat>, q: seq<nat>) {
    && |out| + |p| + |q| == n
    && InRange(n, out) && InRange(n, p) && InRange(n, q)
    && Distinct(out) && Distinct(p) && Distinct(q)
    && Apart(out, p) && Apart(out, q) && Apart(p, q)
  }

  /** In the middle of a pass: out has been relinked, p and q are two chains still to be merged,
      and q runs to the end of the list. */
  ghost predicate Shape(next: seq<int>, out: seq<nat>, p: seq<nat>, q: seq<nat>) {
    && Parts(|next|, out, p, q)
    && Chain(next, out) && Chain(next, p) && IsList(next, First(q), q)
  }

  /** The next fields after node k has been linked behind out. */
  ghost function Relinked(next: seq<int>, out: seq<nat>, k: nat): (r: seq<int>)
    requires InRange(|next|, out)
    ensures |r| == |next|
  {
    if out == [] then next else next[Last(out) := k]
  }

  lemma MovePartsFirst(n: nat, out: seq<nat>, p: seq<nat>, q: seq<nat>)
    requires Parts(n, out, p, q) && p != []
    ensures Parts(n, out + [p[0]], p[1..], q)
  {
  }

  lemma MovePartsSecond(n: nat, out: seq<nat>, p: seq<nat>, q: seq<nat>)
    requires Parts(n, out, p, q) && q != []
    ensures Parts(n, out + [q[0]], p, q[1..])
  {
  }

  lemma ChainGrows(next: seq<int>, out: seq<nat>, k: nat)
    requires InRange(|next|, out) && Distinct(out) && Chain(next, out) && k < |next|
    ensures InRange(|next|, out + [k]) && Chain(Relinked(next, out, k), out + [k])
  {
    var s := out + [k];
    assert forall i :: 0 <= i < |out| ==> s[i] == out[i];
  }

  lemma ChainStays(next: seq<int>, out: seq<nat>, k: nat, s: seq<nat>)
    requires InRange(|next|, out) && InRange(|next|, s) && Chain(next, s) && k < |next|
    requires Apart(out, s)
    ensures Chain(Relinked(next, out, k), s)
    ensures s != [] ==> Relinked(next, out, k)[Last(s)] == next[Last(s)]
  {
  }

  lemma MoveFromFirst(next: seq<int>, out: seq<nat>, p: seq<nat>, q: seq<nat>)
    requires Shape(next, out, p, q) && p != []
    ensures Shape(Relinked(next, out, p[0]), out + [p[0]], p[1..], q)
  {
    MovePartsFirst(|next|, out, p, q);
    ChainGrows(next, out, p[0]);
    ChainStays(next, out, p[0], p[1..]);
    ChainStays(next, out, p[0], q);
  }

  lemma MoveFromSecond(next: seq<int>, out: seq<nat>, p: seq<nat>, q: seq<nat>)
    requires Shape(next, out, p, q) && q != []
    ensures Shape(Relinked(next, out, q[0]), out + [q[0]], p, q[1..])
    ensures next[q[0]] == First(q[1..])
  {
    MovePartsSecond(|next|, out, p, q);
    ChainGrows(next, out, q[0]);
    ChainStays(next, out, q[0], p);
    ChainStays(next, out, q[0], q[1..]);
    assert Last(q) == q[|q| - 1];
  }

  // ----- The state of a sort

  /** What stays fixed during a sort. */
  datatype Setup = Setup(c: Cmp, pool: Pool, info: seq<nat>, idx: seq<int>, s0: Sums, d0: seq<W16>)

  ghost function MemoryOf(x: Setup, next: seq<int>, log: Log): Memory {
    Memory(next, x.info, log.data, x.idx)
  }

  /** The heap and the log agree, and the log accounts for what the comparisons changed. */
  ghost predicate Sorting(x: Setup, next: seq<int>, log: Log)
    reads Footprint(x.c), x.pool.nodes, x.pool.infos
  {
    Holding(x.c, x.pool, MemoryOf(x, next, log), log.sums) && Effect(x.c, x.s0, x.d0, log)
  }

  lemma SortingSizes(x: Setup, next: seq<int>, log: Log)
    requires Sorting(x, next, log)
    ensures |x.pool.nodes| == |next| == |x.info|
    ensures Sized(x, log)
  {
  }

  lemma SortingStores(x: Setup, next: seq<int>, log: Log)
    requires Sorting(x, next, log)
    ensures Stored(x.pool, MemoryOf(x, next, log))
  {
  }

  ghost predicate Sized(x: Setup, log: Log) {
    && |log.data| == |x.idx|
    && forall k :: 0 <= k < |x.info| ==> x.info[k] < |x.idx|
  }

  /** The views of the nodes' cells. */
  ghost function ViewsIn(x: Setup, log: Log): Views
    requires Sized(x, log)
  {
    seq(|x.info|, k requires 0 <= k < |x.info| => ViewOf(x.c, log.data[x.info[k]], x.idx[x.info[k]]))
  }

  /** The nodes whose cells have been compared. */
  ghost function ComparedIn(x: Setup, log: Log): set<nat> {
    set k: nat | k < |x.info| && x.info[k] in log.touched
  }

  /** From one log to a later one no key is forgotten. */
  ghost predicate Later(x: Setup, log: Log, log': Log) {
    && Sized(x, log) && Sized(x, log')
    && Extends(ViewsIn(x, log), ViewsIn(x, log')) && ComparedIn(x, log) <= ComparedIn(x, log')
  }

  /** The keys of nodes i and j are known and r tells their order. */
  ghost predicate Told(c: Cmp, v: Views, i: nat, j: nat, r: int) {
    Known(v, i) && Known(v, j) && (r <= 0 <==> Le(c, v[i].value, v[j].value))
  }

  lemma ComparisonTells(x: Setup, log: Log, i: nat, j: nat, r: int)
    requires Sized(x, log) && i < |x.info| && j < |x.info|
    requires var log' := Comparison(x.c, log, x.info[i], x.info[j]);
             var v, w := ViewOf(x.c, log'.data[x.info[i]], x.idx[x.info[i]]), ViewOf(x.c, log'.data[x.info[j]],
                 x.idx[x.info[j]]);
             v.Some? && w.Some? && r == Order(x.c, v.value, w.value)
    ensures var log' := Comparison(x.c, log, x.info[i], x.info[j]);
            && Later(x, log, log') && Told(x.c, ViewsIn(x, log'), i, j, r)
            && i in ComparedIn(x, log') && j in ComparedIn(x, log')
  {
    var log' := Comparison(x.c, log, x.info[i], x.info[j]);
    ComparisonViews(x.c, log, x.info[i], x.info[j]);
    assert Sized(x, log');
    assert Extends(ViewsIn(x, log), ViewsIn(x, log'));
  }

  /** Compare the cells of nodes p and q. */
  method CompareNodes(c: Cmp, p: Node, q: Node, ghost x: Setup, ghost next: seq<int>, ghost log: Log, ghost i: nat,
          ghost j: nat)
    returns (r: int, ghost log': Log)
    requires x.c == c && Sorting(x, next, log)
    requires i < |next| && p == x.pool.nodes[i] && j < |next| && q == x.pool.nodes[j]
    modifies (set n | n in x.pool.infos)`data16, Footprint(c)
    ensures Sorting(x, next, log') && Later(x, log, log')
    ensures Told(c, ViewsIn(x, log'), i, j, r)
    ensures i in ComparedIn(x, log') && j in ComparedIn(x, log')
  {
    r, log' := Compare(c, p.info, q.info, x.pool, MemoryOf(x, next, log), log, x.info[i], x.info[j]);
    EffectStays(c, x.s0, x.d0, log, x.info[i], x.info[j]);
    ComparisonTells(x, log, i, j, r);
  }

  lemma ChooseMerges(c: Cmp, v: Views, v': Views, A: seq<nat>, B: seq<nat>, a: nat, b: nat, m: seq<nat>, r: int)
    requires TotalPreorder(c) && Merging(c, v, A, B, a, b, m) && Extends(v, v')
    requires a < |A| && b < |B| && Told(c, v', A[a], B[b], r)
    ensures if r <= 0 then Merging(c, v', A, B, a + 1, b, m + [A[a]]) else Merging(c, v', A, B, a, b + 1, m + [B[b]])
  {
    MergingStays(c, v, v', A, B, a, b, m);
    if r <= 0 {
      TakeFromFirst(c, v', A, B, a, b, m);
    } else {
      TakeFromSecond(c, v', A, B, a, b, m);
    }
  }

  lemma LaterSelf(x: Setup, log: Log)
    requires Sized(x, log)
    ensures Later(x, log, log)
  {
  }

  lemma LaterThrough(x: Setup, log: Log, log': Log, log'': Log)
    requires Later(x, log, log') && Later(x, log', log'')
    ensures Later(x, log, log'')
  {
  }

  /** Choose the run that gives the next cell. */
  method Choose(psize: int, qsize: int, p: Node?, q: Node?, c: Cmp, ghost x: Setup, ghost next: seq<int>,
          ghost log: Log, ghost A: seq<nat>, ghost B: seq<nat>, ghost a: nat, ghost b: nat, ghost m: seq<nat>)
    returns (fromP: bool, ghost log': Log)
    requires x.c == c && TotalPreorder(c) && Sorting(x, next, log) && Sized(x, log)
    requires Merging(c, ViewsIn(x, log), A, B, a, b, m) && InRange(|next|, A) && InRange(|next|, B)
    requires psize == |A| - a && qsize >= 0 && (qsize > 0 && q != null <==> b < |B|) && (a < |A| || b < |B|)
    requires a < |A| ==> p == x.pool.nodes[A[a]]
    requires b < |B| ==> q == x.pool.nodes[B[b]]
    modifies (set n | n in x.pool.infos)`data16, Footprint(c)
    ensures Sorting(x, next, log') && Later(x, log, log')
    ensures if fromP then a < |A| && Merging(c, ViewsIn(x, log'), A, B, a + 1, b, m + [A[a]])
            else b < |B| && Merging(c, ViewsIn(x, log'), A, B, a, b + 1, m + [B[b]])
    ensures a < |A| && b < |B| ==> A[a] in ComparedIn(x, log') && B[b] in ComparedIn(x, log')
  {
    log' := log;
    if psize == 0 {
      fromP := false;
      TakeFromSecond(c, ViewsIn(x, log), A, B, a, b, m);
    } else if qsize == 0 || q == null {
      fromP := true;
      TakeFromFirst(c, ViewsIn(x, log), A, B, a, b, m);
    } else {
      var r;
      r, log' := CompareNodes(c, p, q, x, next, log, A[a], B[b]);
      fromP := r <= 0;
      ChooseMerges(c, ViewsIn(x, log), ViewsIn(x, log'), A, B, a, b, m, r);
    }
  }

  /** Make a cell the new end of the output. */
  method Link(list0: Node?, tail0: Node?, e: Node, ghost x: Setup, ghost next: seq<int>, ghost log: Log,
          ghost out: seq<nat>, ghost k: nat)
    returns (list: Node?, tail: Node?)
    requires Sorting(x, next, log) && InRange(|next|, out) && k < |next| && e == x.pool.nodes[k]
    requires list0 == Pointer(x.pool, First(out)) && tail0 == Pointer(x.pool, Last(out))
    modifies (set n | n in x.pool.nodes)`next
    ensures Sorting(x, Relinked(next, out, k), log)
    ensures list == Pointer(x.pool, First(out + [k])) && tail == Pointer(x.pool, Last(out + [k]))
  {
    list := list0;
    if tail0 != null {
      SetNext(tail0, e, x.pool, MemoryOf(x, next, log), Last(out), k);
    } else {
      list := e;
    }
    tail := e;
  }

  /** Where the merge of runs A and B stands: a cells of A and b cells of B have been relinked as m
      behind out0, and rest is what follows B in the list. */
  ghost predicate Merged(x: Setup, next: seq<int>, log: Log, out0: seq<nat>, A: seq<nat>, B: seq<nat>, rest: seq<nat>,
          a: nat, b: nat, m: seq<nat>) {
    && Sized(x, log) && Merging(x.c, ViewsIn(x, log), A, B, a, b, m)
    && InRange(|next|, A) && InRange(|next|, B)
    && Shape(next, out0 + m, A[a..], B[b..] + rest)
    && (B != [] && m != [] ==> A != [] && A[0] in ComparedIn(x, log) && B[0] in ComparedIn(x, log))
  }

  lemma MergedFirst(x: Setup, next: seq<int>, log: Log, log': Log, out0: seq<nat>, A: seq<nat>, B: seq<nat>,
          rest: seq<nat>, a: nat, b: nat, m: seq<nat>)
    requires Merged(x, next, log, out0, A, B, rest, a, b, m) && a < |A| && Later(x, log, log')
    requires Merging(x.c, ViewsIn(x, log'), A, B, a + 1, b, m + [A[a]])
    requires b < |B| ==> A[a] in ComparedIn(x, log') && B[b] in ComparedIn(x, log')
    ensures InRange(|next|, out0 + m) && (out0 + m) + [A[a]] == out0 + (m + [A[a]])
    ensures Merged(x, Relinked(next, out0 + m, A[a]), log', out0, A, B, rest, a + 1, b, m + [A[a]])
  {
    hide Shape, Merging, Chain;
    MergedBounds(x, next, log, out0, A, B, rest, a, b, m);
    MoveFromFirst(next, out0 + m, A[a..], B[b..] + rest);
    assert (out0 + m) + [A[a]] == out0 + (m + [A[a]]);
    assert A[a..][1..] == A[a + 1..];
  }

  lemma MergedSecond(x: Setup, next: seq<int>, log: Log, log': Log, out0: seq<nat>, A: seq<nat>, B: seq<nat>,
          rest: seq<nat>, a: nat, b: nat, m: seq<nat>)
    requires Merged(x, next, log, out0, A, B, rest, a, b, m) && b < |B| && Later(x, log, log')
    requires Merging(x.c, ViewsIn(x, log'), A, B, a, b + 1, m + [B[b]])
    requires a < |A| ==> A[a] in ComparedIn(x, log') && B[b] in ComparedIn(x, log')
    requires A != []
    ensures InRange(|next|, out0 + m) && (out0 + m) + [B[b]] == out0 + (m + [B[b]])
    ensures Merged(x, Relinked(next, out0 + m, B[b]), log', out0, A, B, rest, a, b + 1, m + [B[b]])
    ensures next[B[b]] == First(B[b + 1..] + rest)
  {
    hide Shape, Merging, Chain;
    MergedBounds(x, next, log, out0, A, B, rest, a, b, m);
    MoveFromSecond(next, out0 + m, A[a..], B[b..] + rest);
    assert (out0 + m) + [B[b]] == out0 + (m + [B[b]]);
    assert (B[b..] + rest)[1..] == B[b + 1..] + rest;
  }

  /** The local variables of the merge loop agree with where the merge stands. */
  ghost predicate AtMerge(x: Setup, next: seq<int>, log: Log, out0: seq<nat>, A: seq<nat>, B: seq<nat>, rest: seq<nat>,
          a: nat, b: nat, m: seq<nat>, p: Node?, q: Node?, psize: int, qsize: int, list: Node?, tail: Node?)
  {
    && Merged(x, next, log, out0, A, B, rest, a, b, m)
    && psize == |A| - a && qsize >= |B| - b && (rest != [] ==> qsize == |B| - b)
    && (a < |A| ==> p == Pointer(x.pool, A[a]))
    && q == Pointer(x.pool, First(B[b..] + rest))
    && list == Pointer(x.pool, First(out0 + m)) && tail == Pointer(x.pool, Last(out0 + m))
  }

  lemma MergedBounds(x: Setup, next: seq<int>, log: Log, out0: seq<nat>, A: seq<nat>, B: seq<nat>, rest: seq<nat>,
          a: nat, b: nat, m: seq<nat>)
    requires Merged(x, next, log, out0, A, B, rest, a, b, m)
    ensures a <= |A| && b <= |B| && |m| == a + b && InRange(|next|, out0 + m)
  {
  }

  /** What the branches of the merge loop rely on. */
  lemma AtChoice(x: Setup, next: seq<int>, log: Log, out0: seq<nat>, A: seq<nat>, B: seq<nat>, rest: seq<nat>, a: nat,
          b: nat, m: seq<nat>, p: Node?, q: Node?, psize: int, qsize: int, list: Node?, tail: Node?)
    requires AtMerge(x, next, log, out0, A, B, rest, a, b, m, p, q, psize, qsize, list, tail)
    requires |x.pool.nodes| == |next|
    ensures Sized(x, log) && Merging(x.c, ViewsIn(x, log), A, B, a, b, m)
    ensures Merged(x, next, log, out0, A, B, rest, a, b, m) && psize == |A| - a
    ensures list == Pointer(x.pool, First(out0 + m)) && tail == Pointer(x.pool, Last(out0 + m))
    ensures b == |B| ==> q == Pointer(x.pool, First(rest))
    ensures InRange(|next|, A) && InRange(|next|, B) && InRange(|next|, out0 + m)
    ensures qsize >= 0 && (qsize > 0 && q != null <==> b < |B|)
    ensures a < |A| ==> A[a] < |next| && p == x.pool.nodes[A[a]]
    ensures b < |B| ==> B[b] < |next| && q == x.pool.nodes[B[b]]
    ensures 0 <= psize == |A| - a && a <= |A| && b <= |B|
  {
    hide Merging, Shape, Sized;
    MergedBounds(x, next, log, out0, A, B, rest, a, b, m);
    if b < |B| {
      assert First(B[b..] + rest) == B[b];
    } else {
      assert B[b..] + rest == rest;
    }
  }

  lemma AfterFirst(x: Setup, next: seq<int>, log: Log, log': Log, out0: seq<nat>, A: seq<nat>, B: seq<nat>,
          rest: seq<nat>, a: nat, b: nat, m: seq<nat>, p: Node?, q: Node?, psize: int, qsize: int, list: Node?,
          tail: Node?, p': Node?, list': Node?, tail': Node?)
    requires AtMerge(x, next, log, out0, A, B, rest, a, b, m, p, q, psize, qsize, list, tail)
    requires |x.pool.nodes| == |next| && a < |A| && Later(x, log, log') && InRange(|next|, A)
    requires Merging(x.c, ViewsIn(x, log'), A, B, a + 1, b, m + [A[a]])
    requires b < |B| ==> A[a] in ComparedIn(x, log') && B[b] in ComparedIn(x, log')
    requires p' == Pointer(x.pool, next[A[a]])
    requires list' == Pointer(x.pool, First(out0 + m + [A[a]])) && tail' == Pointer(x.pool, Last(out0 + m + [A[a]]))
    ensures InRange(|next|, out0 + m)
    ensures AtMerge(x, Relinked(next, out0 + m, A[a]), log', out0, A, B, rest, a + 1, b, m + [A[a]], p', q, psize - 1,
                qsize, list', tail')
  {
    MergedFirst(x, next, log, log', out0, A, B, rest, a, b, m);
    assert a + 1 < |A| ==> A[a..][1] == A[a + 1];
  }

  lemma AfterSecond(x: Setup, next: seq<int>, log: Log, log': Log, out0: seq<nat>, A: seq<nat>, B: seq<nat>,
          rest: seq<nat>, a: nat, b: nat, m: seq<nat>, p: Node?, q: Node?, psize: int, qsize: int, list: Node?,
          tail: Node?, q': Node?, list': Node?, tail': Node?)
    requires AtMerge(x, next, log, out0, A, B, rest, a, b, m, p, q, psize, qsize, list, tail)
    requires |x.pool.nodes| == |next| && b < |B| && Later(x, log, log') && InRange(|next|, B) && A != []
    requires Merging(x.c, ViewsIn(x, log'), A, B, a, b + 1, m + [B[b]])
    requires a < |A| ==> A[a] in ComparedIn(x, log') && B[b] in ComparedIn(x, log')
    requires q' == Pointer(x.pool, next[B[b]])
    requires list' == Pointer(x.pool, First(out0 + m + [B[b]])) && tail' == Pointer(x.pool, Last(out0 + m + [B[b]]))
    ensures InRange(|next|, out0 + m)
    ensures AtMerge(x, Relinked(next, out0 + m, B[b]), log', out0, A, B, rest, a, b + 1, m + [B[b]], p, q', psize,
                qsize - 1, list', tail')
  {
    MergedSecond(x, next, log, log', out0, A, B, rest, a, b, m);
  }

  /** Step past the cell e of a run and link it to the merged list. */
  method Move(e: Node, list0: Node?, tail0: Node?, ghost x: Setup, ghost next: seq<int>, ghost log: Log,
          ghost out: seq<nat>, ghost k: nat)
    returns (following: Node?, list: Node?, tail: Node?)
    requires Sorting(x, next, log) && InRange(|next|, out) && k < |next| && e == x.pool.nodes[k]
    requires list0 == Pointer(x.pool, First(out)) && tail0 == Pointer(x.pool, Last(out))
    modifies (set n | n in x.pool.nodes)`next
    ensures Sorting(x, Relinked(next, out, k), log)
    ensures following == Pointer(x.pool, next[k])
    ensures list == Pointer(x.pool, First(out + [k])) && tail == Pointer(x.pool, Last(out + [k]))
  {
    following := e.next;
    list, tail := Link(list0, tail0, e, x, next, log, out, k);
  }

  /** Move one cell to the merged list. */
  method MergeStep(p0: Node?, q0: Node?, psize0: int, qsize0: int, list0: Node?, tail0: Node?, c: Cmp, ghost x: Setup,
          ghost next0: seq<int>, ghost log0: Log, ghost out0: seq<nat>, ghost A: seq<nat>, ghost B: seq<nat>,
          ghost rest: seq<nat>, ghost a0: nat, ghost b0: nat, ghost m0: seq<nat>)
    returns (p: Node?, q: Node?, psize: int, qsize: int, list: Node?, tail: Node?, ghost a: nat, ghost b: nat,
          ghost m: seq<nat>, ghost next: seq<int>, ghost log: Log)
    requires x.c == c && TotalPreorder(c) && Sorting(x, next0, log0) && A != []
    requires AtMerge(x, next0, log0, out0, A, B, rest, a0, b0, m0, p0, q0, psize0, qsize0, list0, tail0)
    requires psize0 > 0 || (qsize0 > 0 && q0 != null)
    modifies (set n | n in x.pool.nodes)`next, (set n | n in x.pool.infos)`data16, Footprint(c)
    ensures Sorting(x, next, log) && Later(x, log0, log)
    ensures AtMerge(x, next, log, out0, A, B, rest, a, b, m, p, q, psize, qsize, list, tail)
    ensures a + b == a0 + b0 + 1 <= |A| + |B|
  {
    hide *;
    SortingSizes(x, next0, log0);
    AtChoice(x, next0, log0, out0, A, B, rest, a0, b0, m0, p0, q0, psize0, qsize0, list0, tail0);
    p, q, psize, qsize, a, b := p0, q0, psize0, qsize0, a0, b0;
    var fromP;
    fromP, log := Choose(psize, qsize, p, q, c, x, next0, log0, A, B, a, b, m0);
    if fromP {
      p, list, tail := Move(p, list0, tail0, x, next0, log, out0 + m0, A[a]);
      psize := psize - 1;
      AfterFirst(x, next0, log0, log, out0, A, B, rest, a, b, m0, p0, q0, psize0, qsize0, list0, tail0, p, list, tail);
      next, m, a := Relinked(next0, out0 + m0, A[a]), m0 + [A[a]], a + 1;
    } else {
      q, list, tail := Move(q, list0, tail0, x, next0, log, out0 + m0, B[b]);
      qsize := qsize - 1;
      AfterSecond(x, next0, log0, log, out0, A, B, rest, a, b, m0, p0, q0, psize0, qsize0, list0, tail0, q, list, tail);
      next, m, b := Relinked(next0, out0 + m0, B[b]), m0 + [B[b]], b + 1;
    }
  }

  /** Merge the run p (psize cells) with the run q (at most insize cells) onto the end of list. */
  method MergeRuns(p0: Node, q0: Node?, psize0: int, insize: int, list0: Node?, tail0: Node?, c: Cmp, ghost x: Setup,
          ghost next0: seq<int>, ghost log0: Log, ghost out0: seq<nat>, ghost A: seq<nat>, ghost B: seq<nat>,
          ghost rest: seq<nat>)
    returns (list: Node?, tail: Node?, q: Node?, ghost m: seq<nat>, ghost next: seq<int>, ghost log: Log)
    requires x.c == c && TotalPreorder(c) && Sorting(x, next0, log0) && A != []
    requires AtMerge(x, next0, log0, out0, A, B, rest, 0, 0, [], p0, q0, psize0, insize, list0, tail0)
    modifies (set n | n in x.pool.nodes)`next, (set n | n in x.pool.infos)`data16, Footprint(c)
    ensures Sorting(x, next, log) && Later(x, log0, log)
    ensures Merged(x, next, log, out0, A, B, rest, |A|, |B|, m)
    ensures list == Pointer(x.pool, First(out0 + m)) && tail == Pointer(x.pool, Last(out0 + m))
    ensures q == Pointer(x.pool, First(rest))
  {
    hide Sorting, AtMerge, Merged, Merging, Later, Sized, TotalPreorder, Shape, Stored;
    var p: Node? := p0;
    var psize, qsize := psize0, insize;
    list, tail, q := list0, tail0, q0;
    m, next, log := [], next0, log0;
    ghost var a: nat, b: nat := 0, 0;
    SortingSizes(x, next, log);
    AtChoice(x, next, log, out0, A, B, rest, a, b, m, p, q, psize, qsize, list, tail);
    LaterSelf(x, log0);
    while psize > 0 || (qsize > 0 && q != null)
      invariant Sorting(x, next, log) && Later(x, log0, log)
      invariant AtMerge(x, next, log, out0, A, B, rest, a, b, m, p, q, psize, qsize, list, tail)
      decreases |A| + |B| - a - b
    {
      ghost var before := log;
      p, q, psize, qsize, list, tail, a, b, m, next, log :=
        MergeStep(p, q, psize, qsize, list, tail, c, x, next, log, out0, A, B, rest, a, b, m);
      LaterThrough(x, log0, before, log);
    }
    SortingSizes(x, next, log);
    AtChoice(x, next, log, out0, A, B, rest, a, b, m, p, q, psize, qsize, list, tail);
  }

  // ----- A pass: merging runs pairwise

  /** Where a pass stands: the merged runs done have been relinked, the runs todo follow p. */
  ghost predicate AtPass(x: Setup, next: seq<int>, log: Log, w: nat, done: seq<seq<nat>>, todo: seq<seq<nat>>) {
    && Sized(x, log) && |x.info| == |next|
    && Passing(x.c, ViewsIn(x, log), ComparedIn(x, log), w, done, todo)
    && Shape(next, Flat(done), [], Flat(todo))
  }

  lemma SplitShape(next: seq<int>, out: seq<nat>, p: seq<nat>, q: seq<nat>)
    requires Shape(next, out, [], p + q)
    ensures Shape(next, out, p, q)
  {
    var s := p + q;
    assert forall i :: 0 <= i < |p| ==> p[i] == s[i];
    assert forall i :: 0 <= i < |q| ==> q[i] == s[|p| + i];
  }

  lemma FirstTwoRuns(c: Cmp, v: Views, s: set<nat>, w: nat, done: seq<seq<nat>>, todo: seq<seq<nat>>)
    requires Passing(c, v, s, w, done, todo) && todo != []
    ensures var A, B := todo[0], Second(todo);
            && A != [] && |A| <= w && |B| <= w && (B != [] ==> |A| == w) && (B == [] ==> Rest(todo) == [])
            && (Rest(todo) != [] ==> |B| == w) && Merging(c, v, A, B, 0, 0, [])
  {
    var A, B := todo[0], Second(todo);
    assert GoodRun(c, v, s, A);
    if |todo| > 1 {
      assert GoodRun(c, v, s, B);
      var all := done + todo;
      assert all[|done|] == A && all[|done| + 1] == B;
      assert AllBelow(all[|done|], all[|done| + 1]);
    }
  }

  lemma PassToMerge(x: Setup, next: seq<int>, log: Log, w: nat, done: seq<seq<nat>>, todo: seq<seq<nat>>)
    requires AtPass(x, next, log, w, done, todo) && todo != []
    ensures var A, B, rest := todo[0], Second(todo), Flat(Rest(todo));
            && A != [] && |A| <= w && |B| <= w && (B + rest != [] ==> |A| == w) && (rest != [] ==> |B| == w)
            && Flat(todo) == A + (B + rest) && IsList(next, First(Flat(todo)), Flat(todo))
            && Merged(x, next, log, Flat(done), A, B, rest, 0, 0, [])
  {
    var A, B, rest := todo[0], Second(todo), Flat(Rest(todo));
    FirstTwoRuns(x.c, ViewsIn(x, log), ComparedIn(x, log), w, done, todo);
    FlatParts(todo);
    SplitShape(next, Flat(done), A, B + rest);
    StartMerge(x, next, log, Flat(done), A, B, rest);
  }

  lemma StartMerge(x: Setup, next: seq<int>, log: Log, out: seq<nat>, A: seq<nat>, B: seq<nat>, rest: seq<nat>)
    requires Sized(x, log) && Merging(x.c, ViewsIn(x, log), A, B, 0, 0, []) && Shape(next, out, A, B + rest)
    ensures Merged(x, next, log, out, A, B, rest, 0, 0, [])
  {
    assert A[0..] == A && B[0..] == B && out + [] == out;
    var q := B + rest;
    assert forall i :: 0 <= i < |B| ==> q[i] == B[i];
  }

  lemma MergeToPass(x: Setup, next: seq<int>, log: Log, next': seq<int>, log': Log, w: nat, done: seq<seq<nat>>,
          todo: seq<seq<nat>>, m: seq<nat>)
    requires AtPass(x, next, log, w, done, todo) && todo != [] && Later(x, log, log') && |next'| == |next|
    requires Merged(x, next', log', Flat(done), todo[0], Second(todo), Flat(Rest(todo)), |todo[0]|, |Second(todo)|, m)
    ensures AtPass(x, next', log', w, done + [m], Rest(todo))
    ensures Flat(done + [m]) == Flat(done) + m
  {
    var c, A, B := x.c, todo[0], Second(todo);
    var v, v', s, s' := ViewsIn(x, log), ViewsIn(x, log'), ComparedIn(x, log), ComparedIn(x, log');
    PassStays(c, v, v', s, s', w, done, todo);
    MergeIsGood(c, v', s', A, B, m);
    PassStep(c, v', s', w, done, todo, m);
    FlatAppend(done, m);
    assert A[|A|..] == [] && B[|B|..] + Flat(Rest(todo)) == Flat(Rest(todo));
  }

  lemma MergeIsGood(c: Cmp, v: Views, s: set<nat>, A: seq<nat>, B: seq<nat>, m: seq<nat>)
    requires Merging(c, v, A, B, |A|, |B|, m)
    requires GoodRun(c, v, s, A) && (B != [] ==> GoodRun(c, v, s, B))
    requires B != [] && m != [] ==> A[0] in s && B[0] in s
    ensures GoodRun(c, v, s, m) && DrawnFrom(m, A, B)
  {
    assert |A| == 1 ==> A == [A[0]];
    assert |B| == 1 ==> B == [B[0]];
  }

  /** Walk over one run, as far as the list goes, and count its cells. */
  method StepAlong(p: Node, insize: int, ghost pool: Pool, ghost m: Memory, ghost s: seq<nat>)
    returns (q: Node?, psize: int)
    requires Stored(pool, m) && IsList(m.next, First(s), s) && s != [] && p == Pointer(pool, s[0]) && insize >= 1
    ensures psize == if |s| <= insize then |s| else insize
    ensures q == Pointer(pool, First(s[psize..]))
  {
    q := p;
    psize := 0;
    for i := 0 to insize
      invariant psize == i < |s| && q == pool.nodes[s[i]]
    {
      psize := psize + 1;
      assert m.next[s[i]] == if i + 1 < |s| then s[i + 1] else -1;
      q := q.next;
      if q == null {
        break;
      }
    }
  }

  /** Find the second run of the next merge. */
  method FindSecond(p: Node, insize: int, ghost list: Node?, ghost tail: Node?, ghost x: Setup, ghost next: seq<int>,
          ghost log: Log, ghost done: seq<seq<nat>>, ghost todo: seq<seq<nat>>)
    returns (q: Node?, psize: int)
    requires Sorting(x, next, log) && insize >= 1
    requires AtPass(x, next, log, insize, done, todo) && todo != [] && p == Pointer(x.pool, First(Flat(todo)))
    requires list == Pointer(x.pool, First(Flat(done))) && tail == Pointer(x.pool, Last(Flat(done)))
    ensures todo[0] != []
    ensures AtMerge(x, next, log, Flat(done), todo[0], Second(todo), Flat(Rest(todo)), 0, 0, [], p, q, psize, insize,
                list, tail)
  {
    hide Sorting, AtPass, AtMerge, Merged, Shape, Stored;
    ghost var A, B, rest := todo[0], Second(todo), Flat(Rest(todo));
    SortingStores(x, next, log);
    PassToMerge(x, next, log, insize, done, todo);
    q, psize := StepAlong(p, insize, x.pool, MemoryOf(x, next, log), Flat(todo));
    assert Flat(todo)[|A|..] == B + rest;
    StartsAtMerge(x, next, log, Flat(done), A, B, rest, p, q, psize, insize, list, tail);
  }

  /** Merge the next two runs of a pass. */
  method MergePair(p: Node, insize: int, list0: Node?, tail0: Node?, c: Cmp, ghost x: Setup, ghost next0: seq<int>,
          ghost log0: Log, ghost done: seq<seq<nat>>, ghost todo: seq<seq<nat>>)
    returns (list: Node?, tail: Node?, q: Node?, ghost m: seq<nat>, ghost next: seq<int>, ghost log: Log)
    requires x.c == c && TotalPreorder(c) && Sorting(x, next0, log0) && insize >= 1
    requires AtPass(x, next0, log0, insize, done, todo) && todo != [] && p == Pointer(x.pool, First(Flat(todo)))
    requires list0 == Pointer(x.pool, First(Flat(done))) && tail0 == Pointer(x.pool, Last(Flat(done)))
    modifies (set n | n in x.pool.nodes)`next, (set n | n in x.pool.infos)`data16, Footprint(c)
    ensures Sorting(x, next, log) && Later(x, log0, log)
    ensures AtPass(x, next, log, insize, done + [m], Rest(todo)) && q == Pointer(x.pool, First(Flat(Rest(todo))))
    ensures list == Pointer(x.pool, First(Flat(done + [m]))) && tail == Pointer(x.pool, Last(Flat(done + [m])))
  {
    hide Sorting, AtPass, AtMerge, Merged, Later, Sized, TotalPreorder, Shape, Stored;
    ghost var A, B, rest := todo[0], Second(todo), Flat(Rest(todo));
    var psize;
    SortingSizes(x, next0, log0);
    q, psize := FindSecond(p, insize, list0, tail0, x, next0, log0, done, todo);
    list, tail, q, m, next, log := MergeRuns(p, q, psize, insize, list0, tail0, c, x, next0, log0, Flat(done), A, B,
        rest);
    SortingSizes(x, next, log);
    MergeToPass(x, next0, log0, next, log, insize, done, todo, m);
  }

  lemma StartsAtMerge(x: Setup, next: seq<int>, log: Log, out: seq<nat>, A: seq<nat>, B: seq<nat>, rest: seq<nat>,
          p: Node?, q: Node?, psize: int, qsize: int, list: Node?, tail: Node?)
    requires Merged(x, next, log, out, A, B, rest, 0, 0, []) && A != []
    requires psize == |A| && |B| <= qsize && (rest != [] ==> |B| == qsize)
    requires p == Pointer(x.pool, A[0]) && q == Pointer(x.pool, First(B + rest))
    requires list == Pointer(x.pool, First(out)) && tail == Pointer(x.pool, Last(out))
    ensures AtMerge(x, next, log, out, A, B, rest, 0, 0, [], p, q, psize, qsize, list, tail)
  {
    assert B[0..] == B && out + [] == out;
  }

  /** Close the output list. */
  method EndList(tail: Node?, ghost x: Setup, ghost next: seq<int>, ghost log: Log, ghost k: int)
    requires Sorting(x, next, log) && 0 <= k < |next| && tail == Pointer(x.pool, k)
    modifies (set n | n in x.pool.nodes)`next
    ensures Sorting(x, next[k := -1], log)
  {
    SetNext(tail, null, x.pool, MemoryOf(x, next, log), k, -1);
  }

  /** One pass over the list: merge the runs of insize cells pairwise. */
  method Pass(list0: Node, insize: int, c: Cmp, ghost x: Setup, ghost next0: seq<int>, ghost log0: Log,
          ghost runs0: seq<seq<nat>>)
    returns (list: Node?, nmerges: int, ghost runs: seq<seq<nat>>, ghost next: seq<int>, ghost log: Log)
    requires x.c == c && TotalPreorder(c) && Sorting(x, next0, log0) && insize >= 1
    requires AtPass(x, next0, log0, insize, [], runs0) && runs0 != [] && list0 == Pointer(x.pool, First(Flat(runs0)))
    modifies (set n | n in x.pool.nodes)`next, (set n | n in x.pool.infos)`data16, Footprint(c)
    ensures Sorting(x, next, log) && Later(x, log0, log)
    ensures AtPass(x, next, log, 2 * insize, [], runs) && list == Pointer(x.pool, First(Flat(runs)))
    ensures nmerges == |runs| == (|runs0| + 1) / 2
  {
    hide Sorting, AtPass, Later, Sized, TotalPreorder, Shape, Stored;
    var p: Node? := list0;
    list := null;
    var tail: Node? := null;
    nmerges := 0;
    ghost var todo := runs0;
    runs, next, log := [], next0, log0;
    SortingSizes(x, next0, log0);
    LaterSelf(x, log0);
    while p != null
      invariant Sorting(x, next, log) && Later(x, log0, log)
      invariant AtPass(x, next, log, insize, runs, todo) && p == Pointer(x.pool, First(Flat(todo)))
      invariant list == Pointer(x.pool, First(Flat(runs))) && tail == Pointer(x.pool, Last(Flat(runs)))
      invariant nmerges == |runs|
      invariant todo != [] ==> 2 * |runs| + |todo| == |runs0|
      invariant todo == [] ==> |runs| == (|runs0| + 1) / 2
      decreases |todo|
    {
      nmerges := nmerges + 1;
      ghost var before, m := log, [];
      TodoIsNotEmpty(x, next, log, insize, runs, todo);
      list, tail, p, m, next, log := MergePair(p, insize, list, tail, c, x, next, log, runs, todo);
      LaterThrough(x, log0, before, log);
      runs, todo := runs + [m], Rest(todo);
    }
    TodoIsNotEmpty(x, next, log, insize, runs, todo);
    SortingSizes(x, next, log);
    PassEnds(x, next, log, insize, runs);
    EndList(tail, x, next, log, Last(Flat(runs)));
    next := next[Last(Flat(runs)) := -1];
  }

  lemma TodoIsNotEmpty(x: Setup, next: seq<int>, log: Log, w: nat, done: seq<seq<nat>>, todo: seq<seq<nat>>)
    requires AtPass(x, next, log, w, done, todo)
    ensures First(Flat(todo)) == -1 <==> todo == []
    ensures First(Flat(todo)) < |next|
    ensures Last(Flat(done)) == -1 <==> done == []
  {
    if todo != [] {
      assert GoodRun(x.c, ViewsIn(x, log), ComparedIn(x, log), todo[0]);
    }
    if done != [] {
      assert GoodRun(x.c, ViewsIn(x, log), ComparedIn(x, log), done[0]);
    }
  }

  lemma PassEnds(x: Setup, next: seq<int>, log: Log, w: nat, runs: seq<seq<nat>>)
    requires AtPass(x, next, log, w, runs, []) && runs != []
    ensures 0 <= Last(Flat(runs)) < |next|
    ensures AtPass(x, next[Last(Flat(runs)) := -1], log, 2 * w, [], runs)
  {
    assert GoodRun(x.c, ViewsIn(x, log), ComparedIn(x, log), runs[0]);
    assert [] + runs == runs && runs + [] == runs;
  }

  // ----- The whole sort

  /** The next fields of a list whose nodes are numbered in list order. */
  ghost function Straight(n: nat): seq<int> {
    seq(n, k => if k < n - 1 then k + 1 else -1)
  }

  ghost function Numbers(k: nat, n: nat): seq<nat>
    requires k <= n
  {
    seq(n - k, i requires 0 <= i => k + i)
  }

  ghost function Singles(k: nat, n: nat): seq<seq<nat>>
    requires k <= n
  {
    seq(n - k, i requires 0 <= i => [k + i])
  }

  lemma {:induction false} FlatSingles(k: nat, n: nat)
    requires k <= n
    ensures Flat(Singles(k, n)) == Numbers(k, n)
    decreases n - k
  {
    if k < n {
      FlatSingles(k + 1, n);
      assert Singles(k, n)[1..] == Singles(k + 1, n);
      assert Numbers(k, n) == [k] + Numbers(k + 1, n);
    }
  }

  lemma SinglesPass(c: Cmp, v: Views, s: set<nat>, n: nat)
    ensures Passing(c, v, s, 1, [], Singles(0, n))
  {
    hide GoodRun;
    var runs := Singles(0, n);
    assert [] + runs == runs;
    forall k | 0 <= k < n ensures runs[k] == [k] && GoodRun(c, v, s, runs[k]) {
      SingleRun(c, v, s, k);
    }
  }

  lemma SingleRun(c: Cmp, v: Views, s: set<nat>, k: nat)
    ensures GoodRun(c, v, s, [k])
  {
  }

  lemma NumbersShape(n: nat)
    ensures Shape(Straight(n), [], [], Numbers(0, n))
  {
    var s := Numbers(0, n);
    assert forall i :: 0 <= i < n ==> s[i] == i;
  }

  lemma SortStarts(c: Cmp, pool: Pool, m: Memory, x: Setup, log: Log)
    requires Holding(c, pool, m, log.sums) && |m.next| >= 1 && m.next == Straight(|m.next|)
    requires x == Setup(c, pool, m.info, m.idx, log.sums, m.data) && log == Log(m.data, log.sums, {}, [])
    ensures Sorting(x, m.next, log) && AtPass(x, m.next, log, 1, [], Singles(0, |m.next|))
    ensures Singles(0, |m.next|) != [] && pool.nodes[0] == Pointer(pool, First(Flat(Singles(0, |m.next|))))
  {
    FlatSingles(0, |m.next|);
    SinglesPass(c, ViewsIn(x, log), ComparedIn(x, log), |m.next|);
    NumbersShape(|m.next|);
  }

  lemma OrderEnds(x: Setup, next: seq<int>, log: Log, w: nat, runs: seq<seq<nat>>)
    requires AtPass(x, next, log, w, [], runs) && |runs| == 1
    ensures var order := Flat(runs);
            && IsPermutation(order, |next|) && IsList(next, First(order), order)
            && StableSorted(x.c, ViewsIn(x, log), order)
            && (|next| >= 2 ==> forall k :: 0 <= k < |next| ==> k in ComparedIn(x, log))
  {
    var order := runs[0];
    assert runs[1..] == [] && Flat(runs) == order + [];
    assert GoodRun(x.c, ViewsIn(x, log), ComparedIn(x, log), order);
    PermutationCovers(order, |next|);
  }

  ghost function Below(n: nat): set<nat> {
    if n == 0 then {} else Below(n - 1) + {n - 1}
  }

  lemma {:induction false} BelowSize(n: nat)
    ensures |Below(n)| == n && forall k :: k in Below(n) <==> 0 <= k < n
  {
    if n > 0 { BelowSize(n - 1); }
  }

  lemma {:induction false} DistinctCovers(s: seq<nat>, rest: set<nat>)
    requires Distinct(s) && (forall i :: 0 <= i < |s| ==> s[i] in rest) && |s| == |rest|
    ensures forall k :: k in rest ==> k in s
  {
    if s == [] {
      assert rest == {};
    } else {
      assert forall i :: 0 <= i < |s[1..]| ==> s[1..][i] == s[i + 1];
      DistinctCovers(s[1..], rest - {s[0]});
      forall k | k in rest ensures k in s {
        assert k == s[0] || k in s[1..];
      }
    }
  }

  lemma PermutationCovers(s: seq<nat>, n: nat)
    requires IsPermutation(s, n)
    ensures forall k :: 0 <= k < n ==> k in s
  {
    BelowSize(n);
    DistinctCovers(s, Below(n));
  }

  /** The views of all nodes of a list in memory m. */
  ghost function NodeViews(c: Cmp, m: Memory): Views
    requires |m.data| == |m.idx| && forall k :: 0 <= k < |m.info| ==> m.info[k] < |m.data|
  {
    seq(|m.info|, k requires 0 <= k < |m.info| => ViewOf(c, m.data[m.info[k]], m.idx[m.info[k]]))
  }

  /** What a finished sort of the list memory m with sums s has produced: memory m' with the same
      nodes, relinked in the order given, stably sorted by the keys the cells have in the end. */
  ghost predicate Sorted(c: Cmp, m: Memory, s: Sums, m': Memory, log: Log, order: seq<nat>) {
    && m' == Memory(m'.next, m.info, log.data, m.idx) && |m'.next| == |m.next|
    && |m'.data| == |m'.idx| && (forall k :: 0 <= k < |m'.info| ==> m'.info[k] < |m'.data|)
    && IsPermutation(order, |m.next|) && IsList(m'.next, First(order), order)
    && StableSorted(c, NodeViews(c, m'), order)
    && Effect(c, s, m.data, log)
    && (|m.next| >= 2 ==> forall k :: 0 <= k < |m.info| ==> m.info[k] in log.touched)
  }

  /** core_list_mergesort, on a list whose nodes are numbered in list order.  The list is short
      enough for insize to stay within 32 bits. */
  method CoreListMergesort(list0: Node, c: Cmp, ghost pool: Pool, ghost m0: Memory, ghost s0: Sums)
    returns (list: Node?, ghost m: Memory, ghost log: Log, ghost order: seq<nat>)
    requires TotalPreorder(c) && Holding(c, pool, m0, s0)
    requires 1 <= |m0.next| <= 0x4000_0000 && m0.next == Straight(|m0.next|) && list0 == pool.nodes[0]
    modifies (set n | n in pool.nodes)`next, (set n | n in pool.infos)`data16, Footprint(c)
    ensures Holding(c, pool, m, log.sums) && Sorted(c, m0, s0, m, log, order)
    ensures list == Pointer(pool, First(order))
  {
    hide *;
    ghost var x := Setup(c, pool, m0.info, m0.idx, s0, m0.data);
    ghost var next, runs := m0.next, Singles(0, |m0.next|);
    log := Log(m0.data, s0, {}, []);
    SortStarts(c, pool, m0, x, log);
    list := list0;
    var insize := 1;
    while true
      invariant insize >= 1 && (insize == 1 || insize < |next|) && |next| == |m0.next|
      invariant Sorting(x, next, log) && AtPass(x, next, log, insize, [], runs)
      invariant runs != [] && list == Pointer(pool, First(Flat(runs)))
      decreases |runs|
    {
      var nmerges;
      RunsLeft(x, next, log, insize, runs);
      ghost var next', log';
      list, nmerges, runs, next', log' := Pass(list, insize, c, x, next, log, runs);
      RunsLeft(x, next', log', 2 * insize, runs);
      next, log := next', log';
      if nmerges <= 1 {
        break;
      }
      assert insize * 2 <= 0x7fff_ffff;
      insize := insize * 2;
    }
    order := Flat(runs);
    m := MemoryOf(x, next, log);
    SortEnds(x, next, log, 2 * insize, runs, m0, m);
  }

  /** With more than one run left, the run width is below the list length. */
  lemma RunsLeft(x: Setup, next: seq<int>, log: Log, w: nat, runs: seq<seq<nat>>)
    requires Sorting(x, next, log) && AtPass(x, next, log, w, [], runs) && runs != []
    ensures |runs| >= 2 ==> w < |next|
    ensures Pointer(x.pool, First(Flat(runs))) != null
    ensures |next| == |x.info|
  {
    hide Sorting, GoodRun, Stored;
    SortingSizes(x, next, log);
    TodoIsNotEmpty(x, next, log, w, [], runs);
    if |runs| >= 2 {
      WidthBound(x, next, log, w, runs);
    }
  }

  lemma WidthBound(x: Setup, next: seq<int>, log: Log, w: nat, runs: seq<seq<nat>>)
    requires AtPass(x, next, log, w, [], runs) && |runs| >= 2
    ensures w < |next|
  {
    FlatParts(runs);
    FirstTwoRuns(x.c, ViewsIn(x, log), ComparedIn(x, log), w, [], runs);
    assert GoodRun(x.c, ViewsIn(x, log), ComparedIn(x, log), runs[1]);
  }

  lemma SortEnds(x: Setup, next: seq<int>, log: Log, w: nat, runs: seq<seq<nat>>, m0: Memory, m: Memory)
    requires Sorting(x, next, log) && AtPass(x, next, log, w, [], runs) && |runs| == 1 && |next| == |m0.next|
    requires x == Setup(x.c, x.pool, m0.info, m0.idx, x.s0, m0.data) && m == MemoryOf(x, next, log)
    ensures Holding(x.c, x.pool, m, log.sums) && Sorted(x.c, m0, x.s0, m, log, Flat(runs))
  {
    hide StableSorted, IsPermutation, IsList, Effect, AtPass, Stored;
    OrderEnds(x, next, log, w, runs);
    SortingSizes(x, next, log);
    assert NodeViews(x.c, m) == ViewsIn(x, log);
    forall k | 0 <= k < |m0.info| && |next| >= 2 ensures m0.info[k] in log.touched {
      assert k in ComparedIn(x, log);
    }
  }
}
