/** The CoreMark list benchmark: it scrambles its list and claims to leave it as it was. */
module ListBench {
  import opened Bits
  import opened Cells
  import opened CoreList
  import opened Comparators
  import opened Runs
  import opened ListOps
  import opened MergeSort
  import opened SortProperties
  import opened ListChecksum
  import opened Sequences
  import Crc

  // ----- Sorting a list whose nodes are numbered in any order

  ghost function Renumbered(pool: Pool, s: seq<nat>): Pool
    requires InRange(|pool.nodes|, s)
  {
    Pool(seq(|s|, k requires 0 <= k < |s| => pool.nodes[s[k]]), pool.infos)
  }

  ghost function InOrder(m: Memory, s: seq<nat>): Memory
    requires InRange(|m.info|, s)
  {
    Memory(Straight(|s|), seq(|s|, k requires 0 <= k < |s| => m.info[s[k]]), m.data, m.idx)
  }

  lemma RenumberWellFormed(pool: Pool, m: Memory, s: seq<nat>)
    requires WellFormed(pool, m) && IsPermutation(s, |m.next|)
    ensures WellFormed(Renumbered(pool, s), InOrder(m, s))
  {
  }

  lemma RenumberStored(pool: Pool, m: Memory, s: seq<nat>)
    requires Stored(pool, m) && IsList(m.next, First(s), s) && IsPermutation(s, |m.next|)
    ensures Stored(Renumbered(pool, s), InOrder(m, s))
  {
    hide WellFormed, Distinct;
    RenumberSizes(pool, m);
    var pool', m' := Renumbered(pool, s), InOrder(m, s);
    RenumberWellFormed(pool, m, s);
    RenumberSizes(pool', m');
    forall k | 0 <= k < |s|
      ensures pool'.nodes[k].next == Pointer(pool', m'.next[k]) && pool'.nodes[k].info == pool'.infos[m'.info[k]]
    {
      assert m.next[s[k]] == if k + 1 < |s| then s[k + 1] else -1;
    }
  }

  lemma RenumberSizes(pool: Pool, m: Memory)
    requires WellFormed(pool, m)
    ensures |m.next| == |m.info| == |pool.nodes| && |m.data| == |m.idx| == |pool.infos| && InRange(|m.data|, m.info)
  {
  }

  ghost function Composed(s: seq<nat>, order: seq<nat>): seq<nat>
    requires InRange(|s|, order)
  {
    seq(|order|, k requires 0 <= k < |order| => s[order[k]])
  }

  ghost function NumberIn(s: seq<nat>, k: int): int
    requires k < |s|
  {
    if k < 0 then -1 else s[k]
  }

  /** The next fields of a renumbered pool, in the original numbering. */
  ghost function Original(next: seq<int>, s: seq<nat>): (r: seq<int>)
    requires |next| == |s| && (forall k :: 0 <= k < |next| ==> next[k] < |s|)
    requires forall j :: 0 <= j < |s| ==> j in s
    ensures |r| == |s|
  {
    seq(|s|, j requires 0 <= j < |s| => NumberIn(s, next[IndexOf(s, j)]))
  }

  lemma OriginalAt(next: seq<int>, s: seq<nat>, k: nat)
    requires |next| == |s| && (forall k :: 0 <= k < |next| ==> next[k] < |s|)
    requires IsPermutation(s, |s|) && (forall j :: 0 <= j < |s| ==> j in s) && k < |s|
    ensures Original(next, s)[s[k]] == NumberIn(s, next[k])
  {
    assert IndexOf(s, s[k]) == k;
  }

  lemma OriginalStored(pool: Pool, m: Memory, s: seq<nat>, m': Memory)
    requires WellFormed(pool, m) && IsPermutation(s, |m.next|) && (forall j :: 0 <= j < |s| ==> j in s)
    requires Stored(Renumbered(pool, s), m') && m'.info == InOrder(m, s).info
    ensures Stored(pool, Memory(Original(m'.next, s), m.info, m'.data, m'.idx))
  {
    var pool' := Renumbered(pool, s);
    forall j | 0 <= j < |s|
      ensures pool.nodes[j].next == Pointer(pool, Original(m'.next, s)[j])
              && pool.nodes[j].info == pool.infos[m.info[j]]
    {
      var k := IndexOf(s, j);
      assert pool'.nodes[k] == pool.nodes[j];
    }
  }

  lemma ComposedPermutation(s: seq<nat>, order: seq<nat>)
    requires IsPermutation(s, |s|) && IsPermutation(order, |s|)
    ensures IsPermutation(Composed(s, order), |s|)
  {
  }

  lemma OriginalList(next: seq<int>, s: seq<nat>, order: seq<nat>)
    requires |next| == |s| && (forall k :: 0 <= k < |next| ==> next[k] < |s|)
    requires IsPermutation(s, |s|) && (forall j :: 0 <= j < |s| ==> j in s)
    requires IsList(next, First(order), order) && IsPermutation(order, |s|)
    ensures var t := Composed(s, order); IsList(Original(next, s), First(t), t) && IsPermutation(t, |s|)
  {
    ComposedPermutation(s, order);
    var t, r := Composed(s, order), Original(next, s);
    hide Original;
    forall i | 0 <= i < |t| ensures r[t[i]] == if i + 1 < |t| then t[i + 1] else -1 {
      OriginalAt(next, s, order[i]);
      assert next[order[i]] == if i + 1 < |order| then order[i + 1] else -1;
    }
  }

  lemma SameNodes(pool: Pool, s: seq<nat>)
    requires InRange(|pool.nodes|, s)
    ensures (set n | n in Renumbered(pool, s).nodes) <= (set n | n in pool.nodes)
  {
  }

  /** core_list_mergesort on the list s. */
  method SortList(list0: Node, c: Cmp, ghost pool: Pool, ghost m0: Memory, ghost sums: Sums, ghost s: seq<nat>)
    returns (list: Node?, ghost m: Memory, ghost log: Log, ghost order: seq<nat>)
    requires TotalPreorder(c) && Holding(c, pool, m0, sums)
    requires 1 <= |m0.next| <= 0x4000_0000 && IsPermutation(s, |m0.next|)
    requires IsList(m0.next, First(s), s) && list0 == pool.nodes[s[0]]
    modifies (set n | n in pool.nodes)`next, (set n | n in pool.infos)`data16, Footprint(c)
    ensures Holding(c, pool, m, log.sums) && m == Memory(m.next, m0.info, log.data, m0.idx) && |m.next| == |m0.next|
    ensures IsPermutation(order, |s|) && IsPermutation(Composed(s, order), |s|)
    ensures IsList(m.next, First(Composed(s, order)), Composed(s, order))
    ensures list == Pointer(pool, First(Composed(s, order)))
    ensures |m.data| == |m.idx| && InRange(|m.data|, m.info) && StableSorted(c, PositionViews(c, m, s), order)
    ensures Effect(c, sums, m0.data, log)
    ensures |s| >= 2 ==> forall k :: 0 <= k < |m0.info| ==> m0.info[k] in log.touched
  {
    hide Stored, Sorted, StableSorted, Effect, IsList, Original;
    PermutationCovers(s, |s|);
    SortBegins(c, pool, m0, sums, s);
    ghost var pool', m0' := Renumbered(pool, s), InOrder(m0, s);
    SameNodes(pool, s);
    ghost var m';
    list, m', log, order := CoreListMergesort(list0, c, pool', m0', sums);
    NextInRange(c, pool', m', log.sums);
    m := Memory(Original(m'.next, s), m0.info, log.data, m0.idx);
    SortFinishes(c, pool, m0, sums, s, m', m, log, order);
  }

  /** The views of the nodes by position in the list s. */
  ghost function PositionViews(c: Cmp, m: Memory, s: seq<nat>): Views
    requires InRange(|m.info|, s) && |m.data| == |m.idx| && InRange(|m.data|, m.info)
  {
    seq(|s|, k requires 0 <= k < |s| => ViewOf(c, m.data[m.info[s[k]]], m.idx[m.info[s[k]]]))
  }

  lemma SortBegins(c: Cmp, pool: Pool, m: Memory, sums: Sums, s: seq<nat>)
    requires Holding(c, pool, m, sums) && |m.next| >= 1
    requires IsList(m.next, First(s), s) && IsPermutation(s, |m.next|)
    ensures WellFormed(pool, m) && |pool.nodes| == |m.next| == |m.info|
    ensures Holding(c, Renumbered(pool, s), InOrder(m, s), sums)
    ensures Renumbered(pool, s).nodes[0] == pool.nodes[s[0]] && |InOrder(m, s).next| == |s|
  {
    RenumberStored(pool, m, s);
  }

  lemma NextInRange(c: Cmp, pool: Pool, m: Memory, sums: Sums)
    requires Holding(c, pool, m, sums)
    ensures |m.next| == |pool.nodes| && forall k :: 0 <= k < |m.next| ==> m.next[k] < |m.next|
  {
  }

  lemma SortFinishes(c: Cmp, pool: Pool, m0: Memory, sums: Sums, s: seq<nat>, m': Memory, m: Memory, log: Log,
          order: seq<nat>)
    requires WellFormed(pool, m0) && IsPermutation(s, |m0.next|) && (forall j :: 0 <= j < |s| ==> j in s)
    requires Holding(c, Renumbered(pool, s), m', log.sums) && Sorted(c, InOrder(m0, s), sums, m', log, order)
    requires m == Memory(Original(m'.next, s), m0.info, log.data, m0.idx)
    ensures Holding(c, pool, m, log.sums) && |m.data| == |m.idx| && InRange(|m.data|, m.info)
    ensures IsPermutation(order, |s|) && IsPermutation(Composed(s, order), |s|)
    ensures IsList(m.next, First(Composed(s, order)), Composed(s, order))
    ensures Pointer(Renumbered(pool, s), First(order)) == Pointer(pool, First(Composed(s, order)))
    ensures StableSorted(c, PositionViews(c, m, s), order)
    ensures Effect(c, sums, m0.data, log)
    ensures |s| >= 2 ==> forall k :: 0 <= k < |m0.info| ==> m0.info[k] in log.touched
  {
    hide StableSorted, Effect, Original, Stored;
    NextInRange(c, Renumbered(pool, s), m', log.sums);
    OriginalStored(pool, m0, s, m');
    OriginalList(m'.next, s, order);
    assert PositionViews(c, m, s) == NodeViews(c, m');
    forall k | 0 <= k < |m0.info| && |s| >= 2 ensures m0.info[k] in log.touched {
      assert InOrder(m0, s).info[IndexOf(s, k)] == m0.info[k];
    }
  }

  // ----- What the benchmark relies on

  /** The list the benchmark is given: nodes in ascending idx order, one cell for each node, and
      every cell word with equal upper and lower bytes. */
  ghost predicate Fresh(m: Memory) {
    && m.next == Straight(|m.next|) && |m.info| == |m.next|
    && IsPermutation(m.info, |m.data|) && |m.idx| == |m.data|
    && (forall j, k :: 0 <= j < k < |m.info| ==> m.idx[m.info[j]] <= m.idx[m.info[k]])
    && (forall i :: 0 <= i < |m.data| ==> m.data[i][..8] == m.data[i][8..])
  }

  ghost function IdxOf(m: Memory, node: nat): int {
    if node < |m.info| && m.info[node] < |m.idx| then m.idx[m.info[node]] else 0
  }

  /** No two nodes share an idx. */
  ghost predicate DistinctIdx(m: Memory) {
    forall j, k :: 0 <= j < k < |m.info| ==> IdxOf(m, j) != IdxOf(m, k)
  }

  /** Nodes that share an idx stand in the list s in their initial order. */
  ghost predicate TiesKept(m: Memory, s: seq<nat>) {
    forall p, q :: 0 <= p < q < |s| && IdxOf(m, s[p]) == IdxOf(m, s[q]) ==> s[p] < s[q]
  }

  /** The stable order of the list s by idx. */
  ghost predicate ByIdx(m: Memory, s: seq<nat>, order: seq<nat>) {
    && IsPermutation(order, |s|) && InRange(|s|, order)
    && forall i, j :: 0 <= i < j < |order| ==> IdxPrecedes(m, s, order[i], order[j])
  }

  ghost predicate IdxPrecedes(m: Memory, s: seq<nat>, x: nat, y: nat)
    requires x < |s| && y < |s|
  {
    IdxOf(m, s[x]) < IdxOf(m, s[y]) || (IdxOf(m, s[x]) == IdxOf(m, s[y]) && x < y)
  }

  /** The idx that core_list_init gives to item i, counted from 1, behind the fifth in sequence. */
  function InitialIdx(i: bv16, fifth: bv16, seed: bv16): bv16 {
    if i < fifth then i else 0x3fff & ((((i + 1) & 7) << 8) | (i ^ seed))
  }

  /** The initial list may hold equal idx: an item behind the fifth gets the idx 0 of the list head
      exactly when its number is 7 modulo 8 and agrees with the seed in the low 14 bits. */
  lemma InitialIdxCollides(i: bv16, fifth: bv16, seed: bv16)
    requires 0 < i
    ensures InitialIdx(i, fifth, seed) == 0 <==> fifth <= i && i & 7 == 7 && (i ^ seed) & 0x3fff == 0
    ensures InitialIdx(7, 6, 7) == 0
  {
    var j := i + 1;
    assert j & 7 == 0 <==> i & 7 == 7;
    assert 0x3fff & (((j & 7) << 8) | (i ^ seed)) == 0 <==> j & 7 == 0 && 0x3fff & (i ^ seed) == 0;
  }

  /** Sorting by idx with a null result pointer rebuilds every word from its upper byte. */
  lemma IdxSortRestoresData(s0: Sums, m: Memory, d: seq<W16>, log: Log)
    requires Fresh(m) && UpperKept(m.data, d) && Effect(CmpIdx(true), s0, d, log)
    requires forall k :: 0 <= k < |m.info| ==> m.info[k] in log.touched
    ensures log.data == m.data
  {
    PermutationCovers(m.info, |m.data|);
    forall i | 0 <= i < |m.data| ensures log.data[i] == m.data[i] {
      var k := IndexOf(m.info, i);
      RegenUndoesCache(m.data[i], d[i]);
    }
  }

  lemma {:induction false} IncreasingAtLeast(t: seq<nat>, i: nat)
    requires (forall j, k :: 0 <= j < k < |t| ==> t[j] < t[k]) && i < |t|
    ensures t[i] >= i
  {
    if i > 0 { IncreasingAtLeast(t, i - 1); }
  }

  lemma {:induction false} IncreasingAtMost(t: seq<nat>, i: nat)
    requires (forall j, k :: 0 <= j < k < |t| ==> t[j] < t[k]) && InRange(|t|, t) && i < |t|
    ensures t[i] <= i
    decreases |t| - i
  {
    if i + 1 < |t| { IncreasingAtMost(t, i + 1); }
  }

  lemma IncreasingIsIdentity(t: seq<nat>)
    requires (forall j, k :: 0 <= j < k < |t| ==> t[j] < t[k]) && InRange(|t|, t)
    ensures t == Numbers(0, |t|)
  {
    forall i | 0 <= i < |t| ensures t[i] == i {
      IncreasingAtLeast(t, i);
      IncreasingAtMost(t, i);
    }
  }

  lemma IdentityListIsStraight(next: seq<int>)
    requires IsList(next, First(Numbers(0, |next|)), Numbers(0, |next|))
    ensures next == Straight(|next|)
  {
    var t := Numbers(0, |next|);
    forall i | 0 <= i < |t| ensures next[i] == Straight(|next|)[i] {
      assert t[i] == i;
      assert i + 1 < |t| ==> t[i + 1] == i + 1;
    }
  }

  lemma {:induction false} StraightListIsIdentity(next: seq<int>, t: seq<nat>, i: nat)
    requires next == Straight(|next|) && IsPermutation(t, |next|) && IsList(next, First(t), t) && i < |t|
    ensures t[i] == t[0] + i && t[0] + i < |next|
  {
    if i > 0 {
      StraightListIsIdentity(next, t, i - 1);
      assert next[t[i - 1]] == t[i];
    }
  }

  /** A list of all nodes has the initial links exactly when it has the initial order. */
  lemma StraightExactly(next: seq<int>, t: seq<nat>)
    requires IsPermutation(t, |next|) && IsList(next, First(t), t)
    ensures next == Straight(|next|) <==> t == Numbers(0, |t|)
  {
    if t == Numbers(0, |t|) { IdentityListIsStraight(next); }
    if next == Straight(|next|) {
      hide IsList, Straight;
      forall i | 0 <= i < |t| ensures t[i] == t[0] + i && t[0] + i < |next| {
        StraightListIsIdentity(next, t, i);
      }
      assert |t| > 0 ==> t[|t| - 1] == t[0] + (|t| - 1);
    }
  }

  lemma IdxSorted(m: Memory, s: seq<nat>, order: seq<nat>)
    requires InRange(|m.info|, s) && |m.data| == |m.idx| && InRange(|m.data|, m.info)
    requires IsPermutation(order, |s|) && StableSorted(CmpIdx(true), PositionViews(CmpIdx(true), m, s), order)
    ensures ByIdx(m, s, order)
  {
    var c, v := CmpIdx(true), PositionViews(CmpIdx(true), m, s);
    forall i, j | 0 <= i < j < |order| ensures IdxPrecedes(m, s, order[i], order[j]) {
      assert Before(c, v, order[i], order[j]);
    }
  }

  /** A smaller idx means an earlier node. */
  lemma AscendingNodes(m: Memory, s: seq<nat>, x: nat, y: nat)
    requires Fresh(m) && InRange(|m.info|, s) && x < |s| && y < |s| && IdxPrecedes(m, s, x, y)
    ensures IdxOf(m, s[x]) < IdxOf(m, s[y]) ==> s[x] < s[y]
  {
  }

  lemma PrecedesAt(m: Memory, s: seq<nat>, order: seq<nat>, i: nat, j: nat)
    requires ByIdx(m, s, order) && i < j < |order|
    ensures order[i] < |s| && order[j] < |s| && IdxPrecedes(m, s, order[i], order[j])
  {
  }

  /** A stable sort keeps the order of a tie. */
  lemma TiesInOrder(m: Memory, s: seq<nat>, order: seq<nat>, i: nat, j: nat)
    requires ByIdx(m, s, order) && i < |order| && j < |order| && order[i] < order[j] < |s|
    requires IdxOf(m, s[order[i]]) == IdxOf(m, s[order[j]])
    ensures i < j
  {
    hide ByIdx;
    if j < i { PrecedesAt(m, s, order, j, i); }
  }

  /** Sorting by idx puts the nodes back into their initial order if and only if those that share
      an idx were still in it. */
  lemma IdxSortRestoresExactly(m: Memory, s: seq<nat>, order: seq<nat>)
    requires Fresh(m) && IsPermutation(s, |m.info|) && ByIdx(m, s, order)
    ensures Composed(s, order) == Numbers(0, |s|) <==> TiesKept(m, s)
  {
    hide Fresh;
    var t := Composed(s, order);
    if TiesKept(m, s) {
      forall i, j | 0 <= i < j < |t| ensures t[i] < t[j] {
        assert IdxPrecedes(m, s, order[i], order[j]);
        AscendingNodes(m, s, order[i], order[j]);
      }
      IncreasingIsIdentity(t);
    }
    if t == Numbers(0, |s|) {
      forall p, q | 0 <= p < q < |s| && IdxOf(m, s[p]) == IdxOf(m, s[q]) ensures s[p] < s[q] {
        PermutationCovers(order, |s|);
        var i, j := IndexOf(order, p), IndexOf(order, q);
        assert t[i] == i && t[j] == j;
        TiesInOrder(m, s, order, i, j);
      }
    }
  }

  /** With distinct idx there are no ties. */
  lemma DistinctKeepsTies(m: Memory, s: seq<nat>)
    requires DistinctIdx(m) && IsPermutation(s, |m.info|)
    ensures TiesKept(m, s)
  {
    forall p, q | 0 <= p < q < |s| ensures IdxOf(m, s[p]) != IdxOf(m, s[q]) {
      var x, y := s[p], s[q];
      assert x < |m.info| && y < |m.info| && (x < y || y < x);
    }
  }

  // ----- Which lists are given back

  /** The order in which the find loop of a call leaves the list. */
  ghost function FoundOrder(m: Memory, seed3: int, finderIdx: int): seq<nat> {
    Rounds(m, Numbers(0, |m.next|), finderIdx, Zero(16), if seed3 < 0 then 0 else seed3).s
  }

  /** What data16 of the local info holds at first never matters to the order. */
  lemma {:induction false} RoundsIgnoreJunk(m: Memory, s: seq<nat>, idx: int, junk: W16, junk': W16, n: nat)
    ensures Rounds(m, s, idx, junk, n).s == Rounds(m, s, idx, junk', n).s
    ensures Rounds(m, s, idx, junk, n).idx == Rounds(m, s, idx, junk', n).idx
  {
    hide AfterRound, Sought, FromNat, Plus, RoundBit;
    if n > 0 { RoundsIgnoreJunk(m, s, idx, junk, junk', n - 1); }
  }

  /** The list t may reach the last sort of a call: the find loop alone decides if there is no data
      sort; otherwise it is some list of the same nodes. */
  ghost predicate MayArrive(m: Memory, seed3: int, finderIdx: int, t: seq<nat>) {
    if finderIdx > 0 then IsPermutation(t, |m.next|) else t == FoundOrder(m, seed3, finderIdx)
  }

  /** Searching once for the idx 0 of the head only reverses the list. */
  lemma HeadFoundReverses(m: Memory)
    requires Fresh(m) && |m.next| >= 1 && IdxOf(m, 0) == 0
    ensures FoundOrder(m, 1, 0) == Reversed(Numbers(0, |m.next|))
  {
    hide Fresh, IdxOf, Hit, Plus, RoundBit, FromNat;
    var s, data := Numbers(0, |m.next|), FromNat(16, 0);
    HeadHit(m, data);
    assert Sought(m, s, 0, data, 0) == 0;
    assert Rounds(m, s, 0, Zero(16), 0) == Search(s, 0, Zero(16), Zero(16), 0, 0);
  }

  lemma HeadHit(m: Memory, data: W16)
    requires Fresh(m) && |m.next| >= 1 && IdxOf(m, 0) == 0
    ensures Hit(m, 0, 0, data)
  {
  }

  /** A second round finds the next idx in the reversed list and pulls the node with the idx after that
      to the second place. */
  lemma SecondRoundSplices(m: Memory)
    requires Fresh(m) && |m.next| >= 3 && IdxOf(m, 0) == 0 && IdxOf(m, 1) == 1 && IdxOf(m, 2) > 1
    ensures FoundOrder(m, 2, 0) == [0, 2, 1] + Numbers(3, |m.next|)
  {
    hide Fresh, Rounds, IdxOf, Hit, Turned, FromNat, Val, Scores, Sought;
    var n, s := |m.next|, Numbers(0, |m.next|);
    var r, data := Reversed(s), FromNat(16, 1 % 0x100);
    HeadFoundReverses(m);
    RoundsIdx(m, s);
    OneRound(m, s, 0, Zero(16), 1);
    forall j | 2 <= j < n ensures !Hit(m, j, 1, data) {
      LaterIdx(m, j, data);
    }
    SecondHit(m, data);
    FirstHit(m, r, 1, data, n - 2, 0);
    TurnedReversed(n, FoundOrder(m, 2, 0));
  }

  lemma RoundsIdx(m: Memory, s: seq<nat>)
    ensures Rounds(m, s, 0, Zero(16), 1).idx == 1
  {
    hide Rounds, Turned, FromNat, Val, Scores, Sought;
    NoRounds(m, s, 0, Zero(16));
    OneRound(m, s, 0, Zero(16), 0);
  }

  lemma TurnedReversed(n: nat, q: seq<nat>)
    requires n >= 3 && Turned(Reversed(Numbers(0, n)), n - 2, q)
    ensures q == [0, 2, 1] + Numbers(3, n)
  {
    var t := [0, 2, 1] + Numbers(3, n);
    forall i | 0 <= i < n ensures q[i] == t[i] {
    }
  }

  lemma LaterIdx(m: Memory, j: nat, data: W16)
    requires Fresh(m) && 2 <= j < |m.next| && IdxOf(m, 2) > 1
    ensures !Hit(m, j, 1, data)
  {
  }

  lemma SecondHit(m: Memory, data: W16)
    requires Fresh(m) && |m.next| >= 2 && IdxOf(m, 1) == 1
    ensures Hit(m, 1, 1, data)
  {
  }

  lemma {:induction false} FirstHit(m: Memory, s: seq<nat>, idx: int, data: W16, k: nat, j: nat)
    requires j <= k < |s| && Hit(m, s[k], idx, data)
    requires forall i :: 0 <= i < k ==> !Hit(m, s[i], idx, data)
    ensures Sought(m, s, idx, data, j) == k
    decreases k - j
  {
    hide Hit;
    if j < k { FirstHit(m, s, idx, data, k, j + 1); }
  }

  /** Reversal inverts every tie. */
  lemma ReversedTies(m: Memory)
    requires |m.info| == |m.next|
    ensures TiesKept(m, Reversed(Numbers(0, |m.next|))) <==> DistinctIdx(m)
  {
    var n := |m.next|;
    var s := Reversed(Numbers(0, n));
    forall j, k | 0 <= j < k < n && TiesKept(m, s) ensures IdxOf(m, j) != IdxOf(m, k) {
      assert s[n - 1 - k] == k && s[n - 1 - j] == j;
    }
  }

  /** A list whose head has the idx 0, as it always has, arrives with its ties kept whatever the call
      if and only if no two nodes share an idx. */
  lemma GivenBackExactly(m: Memory)
    requires Fresh(m) && |m.next| >= 1 && IdxOf(m, 0) == 0
    ensures DistinctIdx(m) <==>
              forall seed3: int, finderIdx: int, t: seq<nat> | IsPermutation(t, |m.next|) ::
                MayArrive(m, seed3, finderIdx, t) ==> TiesKept(m, t)
  {
    hide Fresh, DistinctIdx, TiesKept, FoundOrder;
    forall t: seq<nat> | DistinctIdx(m) && IsPermutation(t, |m.next|) ensures TiesKept(m, t) {
      FreshSizes(m);
      DistinctKeepsTies(m, t);
    }
    var r := Reversed(Numbers(0, |m.next|));
    HeadFoundReverses(m);
    FreshSizes(m);
    ReversedTies(m);
    assert IsPermutation(r, |m.next|) && MayArrive(m, 1, 0, r);
  }

  lemma FreshSizes(m: Memory)
    requires Fresh(m)
    ensures |m.info| == |m.next|
  {
  }

  // ----- A list that is not given back

  /** The word of item k, counted in the order of insertion. */
  function ItemWord(k: bv16, seed: bv16): W16 {
    var dat := (((seed ^ k) & 0xf) << 3) | (k & 7);
    Byte(dat) + Byte(dat)
  }

  function Byte(x: bv16): (b: seq<bool>)
    ensures |b| == 8
  {
    [x & 1 != 0, x & 2 != 0, x & 4 != 0, x & 8 != 0, x & 16 != 0, x & 32 != 0, x & 64 != 0, x & 128 != 0]
  }

  /** The list that core_list_init makes from 240 bytes with seed 7: head, seven items and tail.  The
      item that was inserted first, the seventh in the list, gets idx 0 and comes to stand second. */
  ghost function TiedList(): Memory {
    Memory(Straight(9), Numbers(0, 9),
           [Byte(0x80) + Byte(0x80), ItemWord(0, 7), ItemWord(6, 7), ItemWord(5, 7), ItemWord(4, 7), ItemWord(3, 7),
            ItemWord(2, 7), ItemWord(1, 7), Byte(0xff) + Byte(0xff)],
           [0, InitialIdx(7, 2, 7) as int, InitialIdx(1, 2, 7) as int, InitialIdx(2, 2, 7) as int,
            InitialIdx(3, 2, 7) as int, InitialIdx(4, 2, 7) as int, InitialIdx(5, 2, 7) as int,
            InitialIdx(6, 2, 7) as int, 0x7fff])
  }

  /** Only the head and the second node share an idx. */
  ghost predicate TiedAtHead(m: Memory) {
    && |m.info| >= 2 && IdxOf(m, 0) == IdxOf(m, 1)
    && forall j, k :: 0 <= j < k < |m.info| && k >= 2 ==> IdxOf(m, j) != IdxOf(m, k)
  }

  lemma TiedListIsTied()
    ensures Fresh(TiedList()) && TiedAtHead(TiedList()) && IdxOf(TiedList(), 0) == 0
  {
    TiedIdx();
    TiedWords();
    TiedShape();
    hide TiedList, Straight, IdxOf;
    Ascents(TiedList().idx);
    ShapeIsTied(TiedList());
  }

  lemma Ascents(idx: seq<int>)
    requires idx == [0, 0, 1, 0x305, 0x404, 0x503, 0x602, 0x701, 0x7fff]
    ensures |idx| == 9 && idx[0] == idx[1] == 0
    ensures forall j, k :: 0 <= j < k < 9 ==> idx[j] <= idx[k] && (k >= 2 ==> idx[j] < idx[k])
  {
  }

  lemma ShapeIsTied(m: Memory)
    requires m.next == Straight(9) && m.info == Numbers(0, 9) && |m.next| == |m.data| == |m.idx| == 9
    requires m.idx[0] == m.idx[1] == 0
    requires forall j, k :: 0 <= j < k < 9 ==> m.idx[j] <= m.idx[k] && (k >= 2 ==> m.idx[j] < m.idx[k])
    requires forall i :: 0 <= i < 9 ==> m.data[i][..8] == m.data[i][8..]
    ensures Fresh(m) && TiedAtHead(m) && IdxOf(m, 0) == 0
  {
    hide Straight;
    forall j | 0 <= j < 9 ensures IdxOf(m, j) == m.idx[j] && m.info[j] == j {
    }
    hide IdxOf;
  }

  lemma TiedShape()
    ensures var m := TiedList();
            m.next == Straight(9) && m.info == Numbers(0, 9) && |m.next| == |m.data| == |m.idx| == 9
  {
    hide InitialIdx, ItemWord, Byte;
  }

  lemma TiedIdx()
    ensures TiedList().idx == [0, 0, 1, 0x305, 0x404, 0x503, 0x602, 0x701, 0x7fff]
  {
    assert InitialIdx(7, 2, 7) == 0 && InitialIdx(1, 2, 7) == 1 && InitialIdx(2, 2, 7) == 0x305;
    assert InitialIdx(3, 2, 7) == 0x404 && InitialIdx(4, 2, 7) == 0x503;
    assert InitialIdx(5, 2, 7) == 0x602 && InitialIdx(6, 2, 7) == 0x701;
    hide InitialIdx;
  }

  lemma ItemBytes(k: bv16, seed: bv16)
    ensures ItemWord(k, seed)[..8] == ItemWord(k, seed)[8..]
  {
    hide Byte;
  }

  lemma TiedWords()
    ensures |TiedList().data| == 9
    ensures forall i :: 0 <= i < 9 ==> TiedList().data[i][..8] == TiedList().data[i][8..]
  {
    hide ItemWord, Byte, InitialIdx;
    ItemBytes(0, 7);
    ItemBytes(6, 7);
    ItemBytes(5, 7);
    ItemBytes(4, 7);
    ItemBytes(3, 7);
    ItemBytes(2, 7);
    ItemBytes(1, 7);
    assert (Byte(0x80) + Byte(0x80))[..8] == (Byte(0x80) + Byte(0x80))[8..];
    assert (Byte(0xff) + Byte(0xff))[..8] == (Byte(0xff) + Byte(0xff))[8..];
  }

  /** 0 and 1 change places. */
  function Exchanged(k: nat): nat {
    if k == 0 then 1 else if k == 1 then 0 else k
  }

  lemma ExchangedTwice(k: nat, n: nat)
    requires n >= 2
    ensures Exchanged(Exchanged(k)) == k && (k < n ==> Exchanged(k) < n)
  {
  }

  lemma ExchangedLater(m: Memory, s: seq<nat>, x: nat, y: nat)
    requires Fresh(m) && TiedAtHead(m) && s == Reversed(Numbers(0, |m.info|)) && x < |s| && y < |s|
    requires IdxPrecedes(m, s, x, y)
    ensures Exchanged(s[x]) < Exchanged(s[y])
  {
    hide Fresh, IdxOf;
    AscendingNodes(m, s, x, y);
    assert s[x] == |s| - 1 - x && s[y] == |s| - 1 - y;
  }

  /** From the reversed list the idx sort brings the second node to the front. */
  lemma TieSwaps(m: Memory, order: seq<nat>)
    requires Fresh(m) && TiedAtHead(m) && |m.info| >= 2 && ByIdx(m, Reversed(Numbers(0, |m.info|)), order)
    ensures var u := Composed(Reversed(Numbers(0, |m.info|)), order);
            |u| == |m.info| && forall i :: 0 <= i < |u| ==> u[i] == Exchanged(i)
  {
    hide Fresh, TiedAtHead, IdxPrecedes, Exchanged;
    var n := |m.info|;
    var s := Reversed(Numbers(0, n));
    var u := Composed(s, order);
    var t := seq(n, i requires 0 <= i < n => Exchanged(u[i]));
    forall i, j | 0 <= i < j < n ensures t[i] < t[j] {
      assert IdxPrecedes(m, s, order[i], order[j]);
      ExchangedLater(m, s, order[i], order[j]);
    }
    forall k: nat ensures Exchanged(Exchanged(k)) == k && (k < n ==> Exchanged(k) < n) {
      ExchangedTwice(k, n);
    }
    IncreasingIsIdentity(t);
    forall i | 0 <= i < n ensures u[i] == Exchanged(i) {
      assert t[i] == i;
    }
  }

  lemma FirstLinks(next: seq<int>, u: seq<nat>)
    requires IsList(next, First(u), u) && |next| == |u| >= 3 && forall i :: 0 <= i < |u| ==> u[i] == Exchanged(i)
    ensures next[1] == 0 && next[0] == 2
  {
    assert u[0] == 1 && u[1] == 0 && u[2] == 2;
    assert next[u[0]] == u[1] && next[u[1]] == u[2];
  }

  // ----- The benchmark

  /** Find an item, reverse the list, and pull the item behind the one found to the front. */
  method FindRound(list0: Node, idx: int, data: W16, ghost pool: Pool, ghost m0: Memory, ghost s0: seq<nat>)
    returns (list: Node, found: bool, bit: nat, ghost m: Memory, ghost s: seq<nat>)
    requires Stored(pool, m0) && ListIn(m0, s0) && |s0| >= 2 && list0 == pool.nodes[s0[0]]
    modifies (set n | n in pool.nodes)`next
    ensures Stored(pool, m) && m == m0.(next := m.next) && |m.next| == |m0.next|
    ensures ListIn(m, s) && |s| == |s0| && list == pool.nodes[s[0]]
    ensures var k := Sought(m0, s0, idx, data, 0);
            s == AfterRound(s0, k) && bit == RoundBit(m0, s0, k) && (found <==> k < |s0|)
    ensures var k := Sought(m0, s0, idx, data, 0);
            && Turned(s0, k, s) && bit == (if Scores(m0, s0, k) then 1 else 0)
            && (0 < k < |s0| ==> s0[k - 1] < |pool.nodes| && list.next == pool.nodes[s0[k - 1]])
  {
    hide Stored, Spliced, FirstMatch, Reversed, IsList, ListIn, Distinct, WellFormed, Matches, Sought;
    ghost var k;
    var thisFind;
    ListFacts(pool, m0, s0);
    thisFind, k := CoreListFind(list0, idx, data, pool, m0, s0);
    FirstIsSought(pool, m0, s0, idx, data, k, 0);
    var head;
    head, m := CoreListReverse(list0, pool, m0, s0);
    s := Reversed(s0);
    ListFacts(pool, m, s);
    list := head;
    if thisFind == null {
      found := false;
      MissedPosition(pool, m0, s0, k);
      CellOf(pool, m, s, 0);
      CellOf(pool, m, s, 1);
      bit := Bit(list.next.info.data16[8]);
    } else {
      found := true;
      MatchedPosition(pool, m0, s0, k, thisFind, idx, data);
      ghost var j: nat := |s| - 1 - k;
      CellOf(pool, m, s, j);
      bit := if thisFind.info.data16[0] then Bit(thisFind.info.data16[9]) else 0;
      if thisFind.next != null {
        m := Splice(thisFind, list, pool, m, s, j);
        SplicedSize(s, j);
        s := Spliced(s, j);
        ListFacts(pool, m, s);
      }
    }
    NodeFollows(pool, m, s, 0);
    AfterRoundTurns(s0, k);
    RoundScores(m0, s0, k);
  }

  lemma ListFacts(pool: Pool, m: Memory, s: seq<nat>)
    requires Stored(pool, m) && ListIn(m, s)
    ensures WellFormed(pool, m) && IsList(m.next, First(s), s) && InRange(|m.next|, s)
            && |m.info| == |m.next| == |pool.nodes|
    ensures s != [] ==> Pointer(pool, First(s)) == pool.nodes[s[0]]
    ensures |Reversed(s)| == |s|
  {
  }

  lemma SplicedSize(s: seq<nat>, k: nat)
    requires k + 1 < |s|
    ensures |Spliced(s, k)| == |s|
  {
  }

  lemma MissedPosition(pool: Pool, m: Memory, s: seq<nat>, k: nat)
    requires WellFormed(pool, m) && InRange(|m.next|, s) && k <= |s| && Pointer(pool, First(s[k..])) == null
    ensures k == |s|
  {
  }

  lemma MatchedPosition(pool: Pool, m: Memory, s: seq<nat>, k: nat, found: Node?, idx: int, data: W16)
    requires WellFormed(pool, m) && InRange(|m.next|, s) && FirstMatch(pool, m, s, idx, data, k)
    requires found != null && found == Pointer(pool, First(s[k..]))
    ensures k < |s| && found == pool.nodes[s[k]] && Reversed(s)[|s| - 1 - k] == s[k]
  {
  }

  /** Checksum the word of the list head once for every item from finder on. */
  method Walk(list: Node, finder0: Node?, retval0: W16, ghost pool: Pool, ghost m: Memory, ghost s: seq<nat>,
          ghost k0: nat)
    returns (retval: W16)
    requires Stored(pool, m) && IsList(m.next, First(s), s) && k0 <= |s| && finder0 == Pointer(pool, First(s[k0..]))
    ensures retval == FeedTimes(retval0, list.info.data16, |s| - k0)
  {
    hide Stored, IsList, WellFormed, Crc.Feed;
    Entries(pool, m, s);
    retval := retval0;
    var finder := finder0;
    ghost var k := k0;
    while finder != null
      invariant k0 <= k <= |s| && finder == Pointer(pool, First(s[k..]))
      invariant retval == FeedTimes(retval0, list.info.data16, k - k0)
      decreases |s| - k
    {
      CellOf(pool, m, s, k);
      retval := Crc.Crcu16(list.info.data16, retval);
      finder := finder.next;
      k := k + 1;
    }
    MissedPosition(pool, m, s, k);
  }

  /** A sort leaves a list of all nodes. */
  lemma SortedIsListIn(m: Memory, t: seq<nat>)
    requires IsPermutation(t, |m.next|) && IsList(m.next, First(t), t)
    ensures ListIn(m, t)
  {
  }

  lemma ListOfAllIsPermutation(m: Memory, s: seq<nat>)
    requires ListIn(m, s) && |s| == |m.next|
    ensures IsPermutation(s, |m.next|) && IsList(m.next, First(s), s)
  {
  }

  /** Removing the cell behind the second node leaves a list without the third node. */
  lemma RemovedList(m: Memory, s: seq<nat>)
    requires ListIn(m, s) && |s| >= 3 && |m.info| == |m.next|
    ensures m.next[s[1]] == s[2] && s[1] != s[2] && s[0] < |m.next| && s[1] < |m.next| && s[2] < |m.next|
    ensures var t := s[..2] + s[3..]; ListIn(Removed(m, s[1]), t) && |t| >= 2 && t[0] == s[0] && t[1] == s[1]
  {
    var t := s[..2] + s[3..];
    assert forall i :: 2 <= i < |t| ==> t[i] == s[i + 1];
    assert t[0] == s[0] && t[1] == s[1];
  }

  lemma FoundOrNot(pool: Pool, m: Memory, t: seq<nat>, finder: Node?, k: nat)
    requires WellFormed(pool, m) && InRange(|m.next|, t) && k <= |t| && finder == Pointer(pool, First(t[k..]))
    ensures finder == null <==> k == |t|
  {
  }

  lemma SumWhileRemoved(m: Memory, s: seq<nat>, idx: int, data: W16, ret: W16)
    requires ListIn(m, s) && |s| >= 3 && |m.info| == |m.next|
    ensures m.next[s[1]] == s[2] && s[0] < |m.next| && s[1] < |m.next| && s[2] < |m.next|
    ensures var u, m' := s[..2] + s[3..], Removed(m, s[1]);
            var k := Sought(m', u, idx, data, 0);
            RemovedSum(m, s, idx, data, ret) == FeedTimes(ret, WordOf(m', s[0]), if k < |u| then |u| - k else |u| - 1)
  {
    hide Sought, ListIn;
    RemovedList(m, s);
    SoughtWithoutLinks(Removed(m, s[1]), m.(info := Swapped(m.info, s[1], s[2])), s[..2] + s[3..], idx, data, 0);
  }

  /** Find an item, or take the second cell. */
  method FindOrSecond(list: Node, idx: int, data: W16, ghost pool: Pool, ghost m: Memory, ghost t: seq<nat>)
    returns (finder: Node?, ghost k: nat)
    requires Stored(pool, m) && ListIn(m, t) && |t| >= 2 && list == pool.nodes[t[0]]
    ensures k == (if Sought(m, t, idx, data, 0) < |t| then Sought(m, t, idx, data, 0) else 1) <= |t|
    ensures finder == Pointer(pool, First(t[k..]))
  {
    hide Stored, ListIn, IsList, FirstMatch, WellFormed, Distinct, InRange, Sought;
    ListFacts(pool, m, t);
    finder, k := CoreListFind(list, idx, data, pool, m, t);
    FirstIsSought(pool, m, t, idx, data, k, 0);
    FoundOrNot(pool, m, t, finder, k);
    if finder == null {
      CellOf(pool, m, t, 0);
      finder, k := list.next, 1;
    }
  }

  /** Checksum the list from the item found, or from its second cell. */
  method SumFromFound(list: Node, idx: int, data: W16, retval0: W16, ghost pool: Pool, ghost m: Memory,
          ghost t: seq<nat>)
    returns (retval: W16)
    requires Stored(pool, m) && ListIn(m, t) && |t| >= 2 && list == pool.nodes[t[0]]
    ensures var k := Sought(m, t, idx, data, 0);
            retval == FeedTimes(retval0, WordOf(m, t[0]), if k < |t| then |t| - k else |t| - 1)
  {
    hide Stored, ListIn, IsList, WellFormed, Distinct, FeedTimes, InRange, Sought;
    ListFacts(pool, m, t);
    var finder, k := FindOrSecond(list, idx, data, pool, m, t);
    CellOf(pool, m, t, 0);
    retval := Walk(list, finder, retval0, pool, m, t, k);
  }

  lemma NodeFollows(pool: Pool, m: Memory, s: seq<nat>, k: nat)
    requires Stored(pool, m) && ListIn(m, s) && k + 1 < |s|
    ensures s[k] < |m.next| == |m.info| == |pool.nodes| && s[k + 1] < |pool.nodes|
    ensures pool.nodes[s[k]].next == pool.nodes[s[k + 1]] && m.next[s[k]] == s[k + 1]
  {
  }

  /** Remove the cell behind the second node. */
  method RemoveThird(list: Node, ghost pool: Pool, ghost m: Memory, ghost s: seq<nat>) returns (remover: Node)
    requires Stored(pool, m) && ListIn(m, s) && |s| >= 3 && list == pool.nodes[s[0]]
    modifies (set n | n in pool.nodes)
    ensures s[1] < |m.next| == |m.info| == |pool.nodes| && s[2] < |pool.nodes| && m.next[s[1]] == s[2] != s[1]
    ensures Stored(pool, Removed(m, s[1])) && ListIn(Removed(m, s[1]), s[..2] + s[3..]) && |s[..2] + s[3..]| >= 2
    ensures remover == pool.nodes[s[2]] && list.next == pool.nodes[s[1]]
  {
    hide Stored, ListIn, IsList, Removed, WellFormed, Distinct, InRange, First, Pointer;
    NodeFollows(pool, m, s, 0);
    NodeFollows(pool, m, s, 1);
    RemovedList(m, s);
    var item := list.next;
    remover := CoreListRemove(item, pool, m, s[1]);
    NodeFollows(pool, Removed(m, s[1]), s[..2] + s[3..], 0);
  }

  /** Remove one item, checksum, and put the item back. */
  method RemoveAndUndo(list: Node, idx: int, data: W16, retval0: W16, ghost pool: Pool, ghost m: Memory,
          ghost s: seq<nat>)
    returns (retval: W16)
    requires Stored(pool, m) && ListIn(m, s) && |s| >= 3 && list == pool.nodes[s[0]]
    modifies (set n | n in pool.nodes)
    ensures Stored(pool, m) && s[1] < |m.info| && s[2] < |m.info| && retval == RemovedSum(m, s, idx, data, retval0)
    ensures var rest := [s[0]] + s[2..];
            var k := Sought(m, rest, idx, data, 0);
            retval == FeedTimes(retval0, WordOf(m, s[0]), if k < |rest| then |rest| - k else |rest| - 1)
  {
    hide Stored, ListIn, Removed, Reinserted, FeedTimes, Sought, RemovedSum;
    var remover := RemoveThird(list, pool, m, s);
    ghost var m' := Removed(m, s[1]);
    retval := SumFromFound(list, idx, data, retval0, pool, m', s[..2] + s[3..]);
    SumWhileRemoved(m, s, idx, data, retval0);
    UndoRemoveRestores(m, s[1]);
    RemovedSizes(m, s[1]);
    SkipsSecond(m, s, idx, data, retval0);
    remover := CoreListUndoRemove(remover, list.next, pool, m', s[2], s[1]);
  }

  lemma SkipsSecond(m: Memory, s: seq<nat>, idx: int, data: W16, ret: W16)
    requires ListIn(m, s) && |s| >= 3 && |m.info| == |m.next|
    ensures s[1] < |m.info| && s[2] < |m.info|
    ensures var rest := [s[0]] + s[2..];
            var k := Sought(m, rest, idx, data, 0);
            RemovedSum(m, s, idx, data, ret)
            == FeedTimes(ret, WordOf(m, s[0]), if k < |rest| then |rest| - k else |rest| - 1)
  {
    hide RemovedSum, FeedTimes, Sought;
    RemovedSumSkipsSecond(m, s, idx, data, ret);
  }

  lemma RemovedSizes(m: Memory, i: nat)
    requires i < |m.next| == |m.info| && 0 <= m.next[i] < |m.next|
    ensures |Removed(m, i).next| == |Removed(m, i).info| == |m.next|
  {
  }

  /** The list after the find loop: same memory but for the links, and still all the nodes. */
  ghost predicate Scrambled(pool: Pool, m0: Memory, m: Memory, s: seq<nat>) {
    && m == Memory(m.next, m0.info, m.data, m0.idx) && |m.next| == |m0.next| == |s| && |m.info| == |s|
    && ListIn(m, s) && UpperKept(m0.data, m.data)
  }

  /** The list u over the links next is the list s in stable order by idx. */
  ghost predicate SortedByIdx(m0: Memory, s: seq<nat>, order: seq<nat>, next: seq<int>, u: seq<nat>) {
    && ByIdx(m0, s, order) && u == Composed(s, order)
    && IsPermutation(u, |s|) && IsList(next, First(u), u)
  }

  /** core_list_mergesort(list, cmp_idx, NULL): all data words are those of the initial list; so are
      the links if and only if ties arrive in their initial order. */
  method RestoreOrder(list0: Node, ghost sums: Sums, ghost pool: Pool, ghost m0: Memory, ghost m: Memory,
          ghost s: seq<nat>)
    returns (list: Node, ghost m1: Memory, ghost order: seq<nat>, ghost u: seq<nat>)
    requires Stored(pool, m) && Scrambled(pool, m0, m, s) && Fresh(m0)
    requires 2 <= |s| <= 0x4000_0000 && list0 == pool.nodes[s[0]]
    modifies (set n | n in pool.nodes)`next, (set n | n in pool.infos)`data16
    ensures Stored(pool, m1) && m1 == m0.(next := m1.next) && |m1.next| == |m0.next|
    ensures SortedByIdx(m0, s, order, m1.next, u) && |u| == |s| && u[0] < |pool.nodes| && list == pool.nodes[u[0]]
    ensures m1 == m0 <==> TiesKept(m0, s)
  {
    hide Stored, ListIn, IsList, Fresh, StableSorted, Effect, PositionViews, UpperKept, TiesKept, SortedByIdx;
    var c := CmpIdx(true);
    SourceComparatorsArePreorders(c);
    ListOfAllIsPermutation(m, s);
    ghost var log;
    IdxHolding(pool, m, sums);
    var head;
    head, m1, log, order := SortList(list0, c, pool, m, sums, s);
    u := Composed(s, order);
    RestoredMemory(pool, m0, m, s, sums, m1, log, order);
    list := head;
  }

  lemma IdxHolding(pool: Pool, m: Memory, sums: Sums)
    requires Stored(pool, m)
    ensures Holding(CmpIdx(true), pool, m, sums)
  {
  }

  lemma RestoredMemory(pool: Pool, m0: Memory, m: Memory, s: seq<nat>, sums: Sums, m': Memory, log: Log,
          order: seq<nat>)
    requires Scrambled(pool, m0, m, s) && Fresh(m0) && |s| >= 2
    requires Stored(pool, m') && m' == Memory(m'.next, m.info, log.data, m.idx) && |m'.next| == |m.next|
    requires IsPermutation(order, |s|) && IsPermutation(Composed(s, order), |s|)
    requires IsList(m'.next, First(Composed(s, order)), Composed(s, order))
    requires |m'.data| == |m'.idx| && InRange(|m'.data|, m'.info) && InRange(|m'.info|, s)
    requires StableSorted(CmpIdx(true), PositionViews(CmpIdx(true), m', s), order)
    requires Effect(CmpIdx(true), sums, m.data, log)
    requires forall k :: 0 <= k < |m.info| ==> m.info[k] in log.touched
    ensures m' == m0.(next := m'.next) && SortedByIdx(m0, s, order, m'.next, Composed(s, order))
    ensures m' == m0 <==> TiesKept(m0, s)
    ensures var u := Composed(s, order);
            |u| == |s| && u[0] < |pool.nodes| && Pointer(pool, First(u)) == pool.nodes[u[0]]
  {
    hide Stored, StableSorted, PositionViews, IsList, Effect, TiesKept, ByIdx;
    var u := Composed(s, order);
    ListOfAllIsPermutation(m, s);
    IdxSortRestoresData(sums, m0, m.data, log);
    IdxSorted(m', s, order);
    SameIdx(m0, m', s, order);
    IdxSortRestoresExactly(m0, s, order);
    StraightExactly(m'.next, u);
    PoolSize(pool, m');
  }

  lemma SameIdx(m0: Memory, m: Memory, s: seq<nat>, order: seq<nat>)
    requires m.info == m0.info && m.idx == m0.idx && ByIdx(m, s, order)
    ensures ByIdx(m0, s, order)
  {
    forall i, j | 0 <= i < j < |order| ensures IdxPrecedes(m0, s, order[i], order[j]) {
      assert IdxPrecedes(m, s, order[i], order[j]);
    }
  }

  lemma PoolSize(pool: Pool, m: Memory)
    requires Stored(pool, m)
    ensures |pool.nodes| == |m.next|
  {
  }

  /** What the data sort does to the list s over the memory m0: its cells count as log says, and the
      new order is the stable one by their final words. */
  ghost predicate DataSorted(c: Cmp, m0: Memory, sums: Sums, s: seq<nat>, log: Log, order: seq<nat>, t: seq<nat>) {
    && IsPermutation(order, |s|) && InRange(|s|, order) && t == Composed(s, order) && Effect(c, sums, m0.data, log)
    && |log.data| == |m0.idx| && InRange(|log.data|, m0.info) && InRange(|m0.info|, s)
    && StableSorted(c, PositionViews(c, m0.(data := log.data), s), order)
  }

  lemma OtherLinks(c: Cmp, m: Memory, m': Memory, s: seq<nat>)
    requires m'.info == m.info && m'.data == m.data && m'.idx == m.idx
    requires |m.data| == |m.idx| && InRange(|m.data|, m.info) && InRange(|m.info|, s)
    ensures PositionViews(c, m, s) == PositionViews(c, m', s)
  {
  }

  /** core_list_mergesort(list, cmp_complex, res): the data sort keeps all upper bytes. */
  method SortByData(list0: Node, res: Results, ghost pool: Pool, ghost m0: Memory, ghost m: Memory, ghost s: seq<nat>)
    returns (list: Node, ghost m': Memory, ghost t: seq<nat>, ghost log: Log, ghost order: seq<nat>)
    requires Stored(pool, m) && Scrambled(pool, m0, m, s) && m.data == m0.data
    requires 1 <= |s| <= 0x4000_0000 && list0 == pool.nodes[s[0]]
    modifies (set n | n in pool.nodes)`next, (set n | n in pool.infos)`data16, res
    ensures Stored(pool, m') && Scrambled(pool, m0, m', t) && |t| == |s|
    ensures t[0] < |pool.nodes| && list == pool.nodes[t[0]]
    ensures m'.data == log.data && res.Current() == log.sums
    ensures DataSorted(CmpComplex(res), m0, old(res.Current()), s, log, order, t)
  {
    hide Stored, ListIn, IsList, StableSorted, Effect, UpperKept;
    var c := CmpComplex(res);
    SourceComparatorsArePreorders(c);
    ListOfAllIsPermutation(m, s);
    ghost var sums := res.Current();
    var head;
    head, m', log, order := SortList(list0, c, pool, m, sums, s);
    t := Composed(s, order);
    SortedIsListIn(m', t);
    ListFacts(pool, m', t);
    list := head;
    ComplexKeepsUpper(c, sums, m.data, log);
    OtherLinks(c, m', m0.(data := log.data), s);
  }

  /** Find seed3 values in the list, changing the list each time. */
  method FindLoop(head: Node, seed3: int, finderIdx: int, junk: W16, ghost pool: Pool, ghost m0: Memory)
    returns (list: Node, idx: int, data: W16, retval: W16, ghost m: Memory, ghost s: seq<nat>)
    requires Stored(pool, m0) && Fresh(m0) && 2 <= |m0.next| && head == pool.nodes[0]
    requires -0x8000 <= seed3 < 0x8000 && -0x8000 <= finderIdx < 0x8000
    modifies (set n | n in pool.nodes)`next
    ensures Stored(pool, m) && Scrambled(pool, m0, m, s) && m.data == m0.data
    ensures |s| == |m0.next| && s[0] < |pool.nodes| && list == pool.nodes[s[0]]
    ensures var f := Rounds(m0, Numbers(0, |m0.next|), finderIdx, junk, if seed3 < 0 then 0 else seed3);
            s == f.s && idx == f.idx && data == f.data && retval == FindSum(f)
  {
    hide Stored, Fresh, ListIn, IsList, UpperKept, Rounds, AfterRound, RoundBit, Sought, Plus;
    list, retval, idx, data := head, Zero(16), finderIdx, junk;
    var found: nat, missed: nat := 0, 0;
    m, s := m0, Numbers(0, |m0.next|);
    BenchStarts(pool, m0);
    ListFacts(pool, m0, s);
    NoRounds(m0, s, finderIdx, junk);
    var i := 0;
    while i < seed3
      invariant 0 <= i <= (if seed3 < 0 then 0 else seed3) && -0x8000 <= idx < 0x8000
      invariant Search(s, idx, data, retval, found, missed) == Rounds(m0, Numbers(0, |m0.next|), finderIdx, junk, i)
      invariant Stored(pool, m) && Scrambled(pool, m0, m, s) && m.data == m0.data
      invariant |s| == |m0.next| && s[0] < |pool.nodes| && list == pool.nodes[s[0]]
      decreases seed3 - i
    {
      data := FromNat(16, i % 0x100);
      NextRound(m0, m, s, Search(s, idx, data, retval, found, missed), finderIdx, junk, i);
      var hit, bit;
      list, hit, bit, m, s := FindRound(list, idx, data, pool, m, s);
      ListFacts(pool, m, s);
      if hit {
        found := found + 1;
      } else {
        missed := missed + 1;
      }
      retval := Plus(retval, bit);
      if idx >= 0 {
        idx := if idx == 0x7fff then -0x8000 else idx + 1;
      }
      i := i + 1;
    }
    retval := Plus(retval, found * 4 - missed);
  }

  /** One more round, on a memory that has other links. */
  lemma NextRound(m0: Memory, m: Memory, s: seq<nat>, p: Search, idx0: int, junk: W16, n: nat)
    requires m.info == m0.info && m.data == m0.data && m.idx == m0.idx && p.data == FromNat(16, n % 0x100) && p.s == s
    requires var q := Rounds(m0, Numbers(0, |m0.next|), idx0, junk, n); p == q.(data := p.data)
    ensures var k := Sought(m, s, p.idx, p.data, 0);
            Rounds(m0, Numbers(0, |m0.next|), idx0, junk, n + 1) ==
            Search(AfterRound(s, k), if p.idx < 0 then p.idx else if p.idx == 0x7fff then -0x8000 else p.idx + 1,
                   p.data, Plus(p.ret, RoundBit(m, s, k)),
                   if k < |s| then p.found + 1 else p.found, if k < |s| then p.missed else p.missed + 1)
  {
    hide AfterRound, Sought, Plus, FromNat;
    SoughtWithoutLinks(m0, m, s, p.idx, p.data, 0);
  }

  /** The checksum: from the find loop, from the walk while one item is out, over the list that the
      data sort may have reordered and whose cells it may have cached, and from the last walk over
      the list sorted by idx, whose head is the given node. */
  ghost predicate BenchSum(m: Memory, m0: Memory, f: Search, t: seq<nat>, head: nat, retval: W16) {
    && |m0.next| >= 1 && |t| >= 3 && t[1] < |m.info| && t[2] < |m.info|
    && retval == FeedTimes(RemovedSum(m, t, f.idx, f.data, FindSum(f)), WordOf(m0, head), |m0.next| - 1)
  }

  /** The same as one message: the head's word once for every cell from the one found on, the second
      cell being out, and then the sorted list's head's word once for every other cell. */
  lemma BenchSumIsMessage(m: Memory, m0: Memory, f: Search, t: seq<nat>, head: nat, retval: W16, count: nat,
          msg: seq<bool>)
    requires BenchSum(m, m0, f, t, head, retval) && InRange(|m.info|, t) && Distinct(t)
    requires var rest := [t[0]] + t[2..];
             var k := Sought(m, rest, f.idx, f.data, 0);
             count == if k < |t| - 1 then |t| - 1 - k else |t| - 2
    requires |msg| == 16 * (count + |m0.next| - 1)
    requires forall i :: 0 <= i < |msg| ==>
               msg[i] == if i < 16 * count then WordOf(m, t[0])[i % 16] else WordOf(m0, head)[i % 16]
    ensures retval == Crc.Feed(FindSum(f), msg)
  {
    hide Crc.Feed, FeedTimes, Sought, FindSum, WordOf, RemovedSum;
    var a, b := msg[..16 * count], msg[16 * count..];
    RemovedSumSkipsSecond(m, t, f.idx, f.data, FindSum(f));
    FeedTimesIsMessage(FindSum(f), WordOf(m, t[0]), count, a);
    forall i | 0 <= i < |b| ensures b[i] == WordOf(m0, head)[i % 16] {
      SameRemainder(count, i);
    }
    FeedTimesIsMessage(Crc.Feed(FindSum(f), a), WordOf(m0, head), |m0.next| - 1, b);
    Crc.FeedAppend(FindSum(f), a, b);
    assert a + b == msg;
  }

  lemma SameRemainder(count: nat, i: nat)
    ensures (16 * count + i) % 16 == i % 16
  {
  }

  lemma RemovedSumWithoutLinks(m: Memory, m': Memory, s: seq<nat>, idx: int, data: W16, ret: W16)
    requires m'.info == m.info && m'.data == m.data && m'.idx == m.idx
    requires |s| >= 3 && s[1] < |m.info| && s[2] < |m.info|
    ensures RemovedSum(m, s, idx, data, ret) == RemovedSum(m', s, idx, data, ret)
  {
    hide Sought, FeedTimes;
    var a, b := m.(info := Swapped(m.info, s[1], s[2])), m'.(info := Swapped(m.info, s[1], s[2]));
    SoughtWithoutLinks(a, b, s[..2] + s[3..], idx, data, 0);
  }

  /** The list t that reaches the last sort: as the find loop leaves it, or as the data sort does. */
  ghost predicate Reaches(res: Results, sums: Sums, sums': Sums, m0: Memory, f: Search, byData: bool, log: Log,
          order: seq<nat>, t: seq<nat>) {
    if byData then sums' == log.sums && DataSorted(CmpComplex(res), m0, sums, f.s, log, order, t)
    else sums' == sums && t == f.s && log.data == m0.data
  }

  /** The find loop and, for a positive finder_idx, the data sort. */
  method ScrambleList(head: Node, res: Results, seed3: int, finderIdx: int, junk: W16, ghost pool: Pool,
          ghost m0: Memory)
    returns (list: Node, idx: int, data: W16, retval: W16, ghost m: Memory, ghost log: Log, ghost order: seq<nat>,
          ghost t: seq<nat>)
    requires Stored(pool, m0) && Fresh(m0) && 3 <= |m0.next| <= 0x4000_0000 && head == pool.nodes[0]
    requires -0x8000 <= seed3 < 0x8000 && -0x8000 <= finderIdx < 0x8000
    modifies (set n | n in pool.nodes)`next, (set n | n in pool.infos)`data16, res
    ensures Stored(pool, m) && Scrambled(pool, m0, m, t) && m.data == log.data
    ensures |t| == |m0.next| && t[0] < |pool.nodes| && list == pool.nodes[t[0]]
    ensures var f := Rounds(m0, Numbers(0, |m0.next|), finderIdx, junk, if seed3 < 0 then 0 else seed3);
            && idx == f.idx && data == f.data && retval == FindSum(f)
            && Reaches(res, old(res.Current()), res.Current(), m0, f, finderIdx > 0, log, order, t)
    ensures MayArrive(m0, seed3, finderIdx, t) && IsPermutation(t, |m0.next|)
    ensures DistinctIdx(m0) ==> TiesKept(m0, t)
    ensures IdxOf(m0, 0) == 0 && finderIdx == 0 && seed3 == 1 ==> (TiesKept(m0, t) <==> DistinctIdx(m0))
  {
    hide Stored, Fresh, ListIn, IsList, UpperKept, DataSorted, Rounds, DistinctIdx, TiesKept, MayArrive, IsPermutation;
    ghost var s;
    list, idx, data, retval, m, s := FindLoop(head, seed3, finderIdx, junk, pool, m0);
    log, order := Log(m0.data, res.Current(), {}, []), [];
    t := s;
    if finderIdx > 0 {
      list, m, t, log, order := SortByData(list, res, pool, m0, m, s);
    }
    TiesFrom(pool, m0, m, t);
    Arrival(pool, m0, m, seed3, finderIdx, junk, t);
  }

  /** The idx sort and the checksum over the sorted list. */
  method RestoreList(list0: Node, retval0: W16, ghost sums: Sums, ghost pool: Pool, ghost m0: Memory, ghost m: Memory,
          ghost t: seq<nat>)
    returns (retval: W16, ghost m1: Memory, ghost order: seq<nat>, ghost u: seq<nat>)
    requires Stored(pool, m) && Scrambled(pool, m0, m, t) && Fresh(m0)
    requires 2 <= |t| <= 0x4000_0000 && list0 == pool.nodes[t[0]]
    modifies (set n | n in pool.nodes)`next, (set n | n in pool.infos)`data16
    ensures Stored(pool, m1) && m1 == m0.(next := m1.next) && |m1.next| == |m0.next|
    ensures SortedByIdx(m0, t, order, m1.next, u) && |u| == |t|
    ensures m1 == m0 <==> TiesKept(m0, t)
    ensures retval == FeedTimes(retval0, WordOf(m0, u[0]), |u| - 1)
  {
    hide Stored, Fresh, ListIn, IsList, UpperKept, FeedTimes, SortedByIdx, TiesKept;
    var list;
    list, m1, order, u := RestoreOrder(list0, sums, pool, m0, m, t);
    WalkStarts(pool, m0, m1, t, order, u);
    CellOf(pool, m1, u, 0);
    retval := Walk(list, list.next, retval0, pool, m1, u, 1);
  }

  /** core_bench_list.  The list may hold any number of nodes from three on; junk is the
      uninitialised data16 of the local info.  Whatever the find loop, the data sort and the remove
      do, all infos and data words are the initial ones at the end.  The links, and with them the
      whole memory m0, are restored if and only if nodes that share an idx reach the last sort in
      their initial order, and always when no two share one. */
  method CoreBenchList(head: Node, res: Results, seed3: int, finderIdx: int, junk: W16, ghost pool: Pool,
          ghost m0: Memory)
    returns (retval: W16, ghost m1: Memory, ghost log: Log, ghost order: seq<nat>, ghost t: seq<nat>,
          ghost order': seq<nat>, ghost u: seq<nat>)
    requires Stored(pool, m0) && Fresh(m0) && 3 <= |m0.next| <= 0x4000_0000 && head == pool.nodes[0]
    requires -0x8000 <= seed3 < 0x8000 && -0x8000 <= finderIdx < 0x8000
    modifies (set n | n in pool.nodes), (set n | n in pool.infos)`data16, res
    ensures Stored(pool, m1) && m1 == m0.(next := m1.next) && |m1.next| == |m0.next|
    ensures m1 == m0 <==> TiesKept(m0, t)
    ensures MayArrive(m0, seed3, finderIdx, t) && IsPermutation(t, |m0.next|)
    ensures DistinctIdx(m0) ==> m1 == m0
    ensures IdxOf(m0, 0) == 0 && finderIdx == 0 && seed3 == 1 ==> (m1 == m0 <==> DistinctIdx(m0))
    ensures var f := Rounds(m0, Numbers(0, |m0.next|), finderIdx, junk, if seed3 < 0 then 0 else seed3);
            && |t| == |u| == |m0.next|
            && Reaches(res, old(res.Current()), res.Current(), m0, f, finderIdx > 0, log, order, t)
            && SortedByIdx(m0, t, order', m1.next, u)
            && BenchSum(m0.(data := log.data), m0, f, t, u[0], retval)
  {
    hide Stored, Fresh, ListIn, UpperKept, FeedTimes, RemovedSum, DataSorted, Rounds, SortedByIdx, TiesKept,
         DistinctIdx, MayArrive, IsPermutation, IdxOf, Reaches, IsList;
    var list, idx, data;
    ghost var m;
    list, idx, data, retval, m, log, order, t := ScrambleList(head, res, seed3, finderIdx, junk, pool, m0);
    ghost var r1 := retval;
    retval := RemoveAndUndo(list, idx, data, retval, pool, m, t);
    RemovedSumWithoutLinks(m, m0.(data := m.data), t, idx, data, r1);
    ghost var sums := res.Current();
    retval, m1, order', u := RestoreList(list, retval, sums, pool, m0, m, t);
    assert res.Current() == sums;
  }

  lemma Arrival(pool: Pool, m0: Memory, m: Memory, seed3: int, finderIdx: int, junk: W16, t: seq<nat>)
    requires Scrambled(pool, m0, m, t) && Fresh(m0) && |m0.next| >= 1
    requires finderIdx <= 0 ==>
              t == Rounds(m0, Numbers(0, |m0.next|), finderIdx, junk, if seed3 < 0 then 0 else seed3).s
    ensures MayArrive(m0, seed3, finderIdx, t) && IsPermutation(t, |m0.next|)
    ensures IdxOf(m0, 0) == 0 && finderIdx == 0 && seed3 == 1 ==> (TiesKept(m0, t) <==> DistinctIdx(m0))
  {
    hide Fresh, TiesKept, DistinctIdx, Rounds;
    ListOfAllIsPermutation(m, t);
    RoundsIgnoreJunk(m0, Numbers(0, |m0.next|), finderIdx, junk, Zero(16), if seed3 < 0 then 0 else seed3);
    if IdxOf(m0, 0) == 0 && finderIdx == 0 && seed3 == 1 {
      HeadFoundReverses(m0);
      ReversedTies(m0);
    }
  }

  /** A call that does not give its list back: one round that looks for idx 0. */
  method TiedListIsLost(head: Node, res: Results, junk: W16, ghost pool: Pool) returns (retval: W16)
    requires Stored(pool, TiedList()) && head == pool.nodes[0]
    modifies (set n | n in pool.nodes), (set n | n in pool.infos)`data16, res
    ensures |pool.nodes| == 9
    ensures pool.nodes[1].next == pool.nodes[0] && pool.nodes[0].next == pool.nodes[2]
  {
    hide Fresh, Stored, TiedList, BenchSum, Rounds, ByIdx, IsList, TiedAtHead, Reaches, IsPermutation;
    TiedListIsTied();
    TiedListSize(pool);
    ghost var m1, log, order, t, order', u;
    retval, m1, log, order, t, order', u := CoreBenchList(head, res, 1, 0, junk, pool, TiedList());
    HeadFoundReverses(TiedList());
    TieSwaps(TiedList(), order');
    FirstLinks(m1.next, u);
    LinkStored(pool, m1, 0);
    LinkStored(pool, m1, 1);
  }

  lemma TiedListSize(pool: Pool)
    requires Stored(pool, TiedList())
    ensures |TiedList().next| == |TiedList().info| == |pool.nodes| == 9
  {
  }

  lemma LinkStored(pool: Pool, m: Memory, k: nat)
    requires Stored(pool, m) && k < |pool.nodes| == |m.next| && 0 <= m.next[k] < |m.next|
    ensures pool.nodes[k].next == pool.nodes[m.next[k]]
  {
  }

  lemma WalkStarts(pool: Pool, m0: Memory, m1: Memory, s: seq<nat>, order: seq<nat>, u: seq<nat>)
    requires Stored(pool, m1) && m1 == m0.(next := m1.next) && SortedByIdx(m0, s, order, m1.next, u) && |s| >= 1
    ensures IsList(m1.next, First(u), u) && |u| >= 1
    ensures WordOf(m0, u[0]) == WordOf(m1, u[0])
  {
  }

  lemma TiesFrom(pool: Pool, m0: Memory, m: Memory, s: seq<nat>)
    requires Scrambled(pool, m0, m, s)
    ensures DistinctIdx(m0) ==> TiesKept(m0, s)
  {
    hide DistinctIdx, TiesKept;
    ListOfAllIsPermutation(m, s);
    if DistinctIdx(m0) { DistinctKeepsTies(m0, s); }
  }

  lemma BenchStarts(pool: Pool, m: Memory)
    requires Stored(pool, m) && Fresh(m) && |m.next| >= 1
    ensures Scrambled(pool, m, m, Numbers(0, |m.next|)) && Numbers(0, |m.next|)[0] == 0
  {
    StraightFacts(pool, m);
  }

  lemma StraightFacts(pool: Pool, m: Memory)
    requires Stored(pool, m) && Fresh(m) && |m.next| >= 1
    ensures ListIn(m, Numbers(0, |m.next|)) && IsList(m.next, First(Numbers(0, |m.next|)), Numbers(0, |m.next|))
    ensures Pointer(pool, First(Numbers(0, |m.next|)[0..])) == pool.nodes[0]
  {
    var s := Numbers(0, |m.next|);
    assert forall i :: 0 <= i < |s| ==> s[i] == i;
    assert s[0..] == s;
  }
}
