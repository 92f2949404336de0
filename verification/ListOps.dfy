/** Reverse, find, splice, remove and undo-remove on the CoreMark list. */
module ListOps {
  import opened Bits
  import opened Cells
  import opened CoreList
  import opened Sequences

  /** The list s has no node twice and no node outside the memory. */
  ghost predicate ListIn(m: Memory, s: seq<nat>) {
    IsList(m.next, First(s), s) && Distinct(s)
  }

  /** After i nodes of s have been turned round. */
  ghost predicate Reversing(next: seq<int>, s: seq<nat>, i: nat) {
    && i <= |s| && Distinct(s) && InRange(|next|, s)
    && IsList(next, First(Reversed(s[..i])), Reversed(s[..i]))
    && IsList(next, First(s[i..]), s[i..])
  }

  lemma PrependList(next: seq<int>, k: nat, s: seq<nat>)
    requires IsList(next, First(s), s) && k < |next| && k !in s
    ensures IsList(next[k := First(s)], k, [k] + s)
  {
    var t := [k] + s;
    assert forall i :: 0 <= i < |s| ==> t[i + 1] == s[i];
  }

  lemma DropFirst(next: seq<int>, k: nat, f: int, s: seq<nat>)
    requires IsList(next, k, [k] + s) && k !in s
    ensures next[k] == First(s) && k < |next| && IsList(next[k := f], First(s), s)
  {
    var t := [k] + s;
    assert forall i :: 0 <= i < |s| ==> t[i + 1] == s[i];
    assert t[0] == k;
  }

  lemma ReverseStep(next: seq<int>, s: seq<nat>, i: nat)
    requires Reversing(next, s, i) && i < |s|
    ensures s[i] < |next| && First(s[i..]) == s[i] && next[s[i]] == First(s[i + 1..])
    ensures Reversing(next[s[i] := First(Reversed(s[..i]))], s, i + 1)
    ensures First(Reversed(s[..i + 1])) == s[i]
    ensures -1 <= First(Reversed(s[..i])) < |next|
  {
    var done, todo, k := Reversed(s[..i]), s[i + 1..], s[i];
    assert Reversed(s[..i + 1]) == [k] + done && s[i..] == [k] + todo;
    assert forall j :: 0 <= j < |done| ==> done[j] == s[i - 1 - j];
    PrependList(next, k, done);
    DropFirst(next, k, First(done), todo);
  }

  method CoreListReverse(list0: Node?, ghost pool: Pool, ghost m0: Memory, ghost s: seq<nat>)
    returns (head: Node?, ghost m: Memory)
    requires Stored(pool, m0) && ListIn(m0, s) && list0 == Pointer(pool, First(s))
    modifies (set n | n in pool.nodes)`next
    ensures Stored(pool, m) && m == m0.(next := m.next) && |m.next| == |m0.next|
    ensures ListIn(m, Reversed(s)) && head == Pointer(pool, First(Reversed(s)))
  {
    hide Stored, Reversing, ListIn, IsList, Reversed;
    ReverseStarts(pool, m0, s);
    var list := list0;
    var next: Node? := null;
    m := m0;
    ghost var i := 0;
    while list != null
      invariant Stored(pool, m) && m == m0.(next := m.next) && |m.next| == |m0.next| == |pool.nodes|
      invariant 0 <= i <= |s| && Reversing(m.next, s, i)
      invariant next == Pointer(pool, First(Reversed(s[..i]))) && list == Pointer(pool, First(s[i..]))
      decreases |s| - i
    {
      ReverseStep(m.next, s, i);
      NextOf(pool, m, s[i]);
      var tmp := list.next;
      SetNext(list, next, pool, m, s[i], First(Reversed(s[..i])));
      m := m.(next := m.next[s[i] := First(Reversed(s[..i]))]);
      next := list;
      list := tmp;
      i := i + 1;
    }
    head := next;
    ReverseEnds(m, s, i);
  }

  lemma NextOf(pool: Pool, m: Memory, k: nat)
    requires Stored(pool, m) && k < |m.next|
    ensures pool.nodes[k].next == Pointer(pool, m.next[k])
    ensures -1 <= m.next[k] < |m.next| == |pool.nodes|
  {
  }

  lemma ReverseStarts(pool: Pool, m: Memory, s: seq<nat>)
    requires Stored(pool, m) && ListIn(m, s)
    ensures Reversing(m.next, s, 0) && |m.next| == |pool.nodes|
    ensures First(Reversed(s[..0])) == -1 && s[0..] == s
  {
  }

  lemma ReverseEnds(m: Memory, s: seq<nat>, i: nat)
    requires i <= |s| && Reversing(m.next, s, i) && !(0 <= First(s[i..]) < |m.next|)
    ensures s[..i] == s && ListIn(m, Reversed(s))
  {
    assert i == |s|;
    assert s[..i] == s;
  }

  // ----- Find

  /** The test of core_list_find: by idx if that is not negative, else by the low data byte. */
  ghost predicate Matches(m: Memory, node: nat, idx: int, data: W16)
    requires node < |m.info| && m.info[node] < |m.data| == |m.idx|
  {
    if idx >= 0 then m.idx[m.info[node]] == idx else And(m.data[m.info[node]], Mask(16, 8)) == data
  }

  /** By idx, or by the low byte with nothing above it. */
  lemma MatchesExactly(m: Memory, node: nat, idx: int, data: W16)
    requires node < |m.info| && m.info[node] < |m.data| == |m.idx|
    ensures idx >= 0 ==> (Matches(m, node, idx, data) <==> m.idx[m.info[node]] == idx)
    ensures idx < 0 ==>
              (Matches(m, node, idx, data) <==> m.data[m.info[node]][..8] == data[..8] && data[8..] == Zero(8))
  {
    var d := m.data[m.info[node]];
    var x := And(d, Mask(16, 8));
    assert x == d[..8] + Zero(8);
    assert data == data[..8] + data[8..];
    assert x[..8] == d[..8] && x[8..] == Zero(8);
  }

  /** k is the first position of s whose node matches, or |s|. */
  ghost predicate FirstMatch(pool: Pool, m: Memory, s: seq<nat>, idx: int, data: W16, k: nat)
    requires WellFormed(pool, m) && InRange(|m.next|, s)
  {
    && k <= |s|
    && (k < |s| ==> Matches(m, s[k], idx, data))
    && forall j :: 0 <= j < k ==> !Matches(m, s[j], idx, data)
  }

  lemma CellOf(pool: Pool, m: Memory, s: seq<nat>, k: nat)
    requires Stored(pool, m) && IsList(m.next, First(s), s) && k < |s|
    ensures s[k] < |m.info| && m.info[s[k]] < |m.data| == |m.idx|
    ensures Pointer(pool, First(s[k..])) == pool.nodes[s[k]]
    ensures pool.nodes[s[k]].info.idx == m.idx[m.info[s[k]]]
    ensures pool.nodes[s[k]].info.data16 == m.data[m.info[s[k]]]
    ensures pool.nodes[s[k]].next == Pointer(pool, First(s[k + 1..]))
  {
    assert m.next[s[k]] == First(s[k + 1..]);
  }

  /** No node before position k matches. */
  ghost predicate Hits(pool: Pool, m: Memory, s: seq<nat>, idx: int, data: W16, k: nat)
    requires WellFormed(pool, m) && InRange(|m.next|, s)
  {
    k <= |s| && forall j :: 0 <= j < k ==> !Matches(m, s[j], idx, data)
  }

  lemma NoHitYet(pool: Pool, m: Memory, s: seq<nat>, idx: int, data: W16)
    requires WellFormed(pool, m) && InRange(|m.next|, s)
    ensures Hits(pool, m, s, idx, data, 0)
  {
  }

  lemma NextHit(pool: Pool, m: Memory, s: seq<nat>, idx: int, data: W16, k: nat)
    requires WellFormed(pool, m) && InRange(|m.next|, s) && Hits(pool, m, s, idx, data, k) && k < |s|
    ensures s[k] < |m.info| && m.info[s[k]] < |m.data| == |m.idx|
    ensures if Matches(m, s[k], idx, data) then FirstMatch(pool, m, s, idx, data, k)
            else Hits(pool, m, s, idx, data, k + 1)
  {
    hide Matches;
  }

  lemma Found(pool: Pool, m: Memory, s: seq<nat>, idx: int, data: W16, k: nat)
    requires WellFormed(pool, m) && InRange(|m.next|, s) && Hits(pool, m, s, idx, data, k) && k <= |s|
    requires k < |s| ==> FirstMatch(pool, m, s, idx, data, k)
    ensures FirstMatch(pool, m, s, idx, data, k)
  {
  }

  method CoreListFind(list0: Node?, idx: int, data: W16, ghost pool: Pool, ghost m: Memory, ghost s: seq<nat>)
    returns (found: Node?, ghost k: nat)
    requires Stored(pool, m) && IsList(m.next, First(s), s) && list0 == Pointer(pool, First(s))
    ensures FirstMatch(pool, m, s, idx, data, k)
    ensures k <= |s| && found == Pointer(pool, First(s[k..]))
  {
    hide Stored, IsList, WellFormed, Hits;
    found, k := list0, 0;
    Entries(pool, m, s);
    NoHitYet(pool, m, s, idx, data);
    if idx >= 0 {
      while found != null
        invariant k <= |s| && found == Pointer(pool, First(s[k..]))
        invariant Hits(pool, m, s, idx, data, k)
        decreases |s| - k
      {
        CellOf(pool, m, s, k);
        NextHit(pool, m, s, idx, data, k);
        if found.info.idx == idx {
          break;
        }
        found := found.next;
        k := k + 1;
      }
    } else {
      while found != null
        invariant k <= |s| && found == Pointer(pool, First(s[k..]))
        invariant Hits(pool, m, s, idx, data, k)
        decreases |s| - k
      {
        CellOf(pool, m, s, k);
        NextHit(pool, m, s, idx, data, k);
        if And(found.info.data16, Mask(16, 8)) == data {
          break;
        }
        found := found.next;
        k := k + 1;
      }
    }
    Found(pool, m, s, idx, data, k);
  }

  lemma Entries(pool: Pool, m: Memory, s: seq<nat>)
    requires Stored(pool, m) && IsList(m.next, First(s), s)
    ensures WellFormed(pool, m) && InRange(|m.next|, s) && s[0..] == s
    ensures forall k :: 0 <= k < |s| ==> Pointer(pool, First(s[k..])) == pool.nodes[s[k]]
  {
  }

  // ----- Splice

  /** The order after the cell behind position k has been moved to position 1. */
  ghost function Spliced(s: seq<nat>, k: nat): seq<nat>
    requires k + 1 < |s|
  {
    [s[0], s[k + 1]] + s[1..k + 1] + s[k + 2..]
  }

  ghost function SplicedNext(next: seq<int>, s: seq<nat>, k: nat): (next': seq<int>)
    requires InRange(|next|, s) && k + 1 < |s|
    ensures |next'| == |next|
  {
    var next1 := next[s[k] := next[s[k + 1]]];
    var next2 := next1[s[k + 1] := next1[s[0]]];
    next2[s[0] := s[k + 1]]
  }

  /** The position in s of the cell at position i of Spliced(s, k). */
  ghost function Origin(k: nat, i: nat): nat {
    if i == 0 then 0 else if i == 1 then k + 1 else if i < k + 2 then i - 1 else i
  }

  /** The next position: behind the head comes the cell that was pulled out, and behind it what
      followed the head. */
  lemma OriginNext(k: nat, i: nat, n: nat)
    requires k + 1 < n && i < n
    ensures var j, j' := Origin(k, i), Origin(k, i + 1);
            && j < n && (i + 1 < n ==> j' < n)
            && j' == (if j == 0 then k + 1 else if j == k + 1 then (if k == 0 then 2 else 1)
                      else if j == k then k + 2 else j + 1)
            && (i + 1 == n <==> if j == k + 1 then k == 0 && n == 2 else if j == 0 then false else j' == n)
  {
  }

  lemma SplicedAt(s: seq<nat>, k: nat, i: nat)
    requires k + 1 < |s| && i < |s|
    ensures |Spliced(s, k)| == |s| && Spliced(s, k)[i] == s[Origin(k, i)]
  {
  }

  /** What follows position i. */
  ghost function After(s: seq<nat>, i: nat): int {
    if i + 1 < |s| then s[i + 1] else -1
  }

  lemma SplicedNextAt(next: seq<int>, s: seq<nat>, k: nat, j: nat)
    requires InRange(|next|, s) && Distinct(s) && k + 1 < |s| && j < |s|
    requires forall i :: 0 <= i < |s| ==> next[s[i]] == After(s, i)
    ensures SplicedNext(next, s, k)[s[j]] ==
            if j == 0 then s[k + 1]
            else if j == k + 1 then (if k == 0 then (if 2 < |s| then s[2] else -1) else s[1])
            else if j == k then (if k + 2 < |s| then s[k + 2] else -1)
            else if j + 1 < |s| then s[j + 1] else -1
  {
    var a, b, h, x := s[k], s[k + 1], s[0], s[j];
    var next1 := next[a := next[b]];
    var next2 := next1[b := next1[h]];
    var r := SplicedNext(next, s, k);
    assert r == next2[h := b];
    Apart(s, 0, k + 1);
    Apart(s, k, k + 1);
    assert next[b] == After(s, k + 1);
    if j == 0 {
      assert r[x] == b;
    } else if j == k + 1 {
      Apart(s, 0, k);
      assert r[x] == next2[b] == next1[h];
      assert next1[h] == if k == 0 then next[b] else next[h];
    } else {
      Apart(s, 0, j);
      Apart(s, k, j);
      Apart(s, k + 1, j);
      assert r[x] == next2[x] == next1[x];
      assert next1[x] == if j == k then next[b] else next[x];
    }
  }

  lemma Apart(s: seq<nat>, i: nat, j: nat)
    requires Distinct(s) && i < |s| && j < |s|
    ensures s[i] == s[j] <==> i == j
  {
  }

  lemma SplicedLink(next: seq<int>, s: seq<nat>, k: nat, i: nat)
    requires InRange(|next|, s) && Distinct(s) && k + 1 < |s| && i < |s|
    requires forall i :: 0 <= i < |s| ==> next[s[i]] == After(s, i)
    ensures var t := Spliced(s, k);
            |t| == |s| && t[i] < |next| && SplicedNext(next, s, k)[t[i]] == After(t, i)
  {
    hide Spliced, SplicedNext, Distinct, Origin;
    SplicedAt(s, k, i);
    OriginNext(k, i, |s|);
    if i + 1 < |s| { SplicedAt(s, k, i + 1); }
    SplicedNextAt(next, s, k, Origin(k, i));
  }

  lemma SplicedDistinct(s: seq<nat>, k: nat)
    requires Distinct(s) && k + 1 < |s|
    ensures Distinct(Spliced(s, k)) && |Spliced(s, k)| == |s| && First(Spliced(s, k)) == s[0]
  {
    var t := Spliced(s, k);
    forall i, j | 0 <= i < j < |t| ensures t[i] != t[j] {
      SplicedAt(s, k, i);
      SplicedAt(s, k, j);
      Apart(s, Origin(k, i), Origin(k, j));
    }
  }

  lemma SplicedList(next: seq<int>, s: seq<nat>, k: nat)
    requires IsList(next, First(s), s) && Distinct(s) && k + 1 < |s|
    ensures var t := Spliced(s, k); IsList(SplicedNext(next, s, k), First(t), t) && Distinct(t)
    ensures First(Spliced(s, k)) == s[0]
  {
    var t := Spliced(s, k);
    hide Spliced, SplicedNext, Distinct;
    SplicedDistinct(s, k);
    forall i | 0 <= i < |s| ensures next[s[i]] == After(s, i) {
    }
    forall i | 0 <= i < |t| ensures t[i] < |next| && SplicedNext(next, s, k)[t[i]] == After(t, i) {
      SplicedLink(next, s, k, i);
    }
  }

  /** Pull the cell behind thisFind out and put it in behind the list head. */
  method Splice(thisFind: Node, list: Node, ghost pool: Pool, ghost m0: Memory, ghost s: seq<nat>, ghost k: nat)
    returns (ghost m: Memory)
    requires Stored(pool, m0) && ListIn(m0, s) && k + 1 < |s|
    requires thisFind == pool.nodes[s[k]] && list == pool.nodes[s[0]]
    modifies (set n | n in pool.nodes)`next
    ensures Stored(pool, m) && m == m0.(next := m.next) && |m.next| == |m0.next|
    ensures ListIn(m, Spliced(s, k)) && list == Pointer(pool, First(Spliced(s, k)))
  {
    hide Stored, Spliced;
    SplicedList(m0.next, s, k);
    assert m0.next[s[k]] == s[k + 1];
    NextOf(pool, m0, s[k]);
    var finder := thisFind.next;
    assert finder == pool.nodes[s[k + 1]];
    NextOf(pool, m0, s[k + 1]);
    SetNext(thisFind, finder.next, pool, m0, s[k], m0.next[s[k + 1]]);
    m := m0.(next := m0.next[s[k] := m0.next[s[k + 1]]]);
    NextOf(pool, m, s[0]);
    SetNext(finder, list.next, pool, m, s[k + 1], m.next[s[0]]);
    m := m.(next := m.next[s[k + 1] := m.next[s[0]]]);
    SetNext(list, finder, pool, m, s[0], s[k + 1]);
    m := m.(next := m.next[s[0] := s[k + 1]]);
  }

  // ----- Remove and undo

  ghost function Swapped(info: seq<nat>, i: nat, r: nat): seq<nat>
    requires i < |info| && r < |info|
  {
    info[i := info[r]][r := info[i]]
  }

  /** The memory after the cell behind node i has been removed, its data kept in node i. */
  ghost function Removed(m: Memory, i: nat): Memory
    requires i < |m.next| == |m.info| && 0 <= m.next[i] < |m.next|
  {
    var r: nat := m.next[i];
    m.(info := Swapped(m.info, i, r), next := m.next[i := m.next[r]][r := -1])
  }

  ghost function Reinserted(m: Memory, r: nat, i: nat): Memory
    requires i < |m.next| == |m.info| && r < |m.next|
  {
    m.(info := Swapped(m.info, r, i), next := m.next[r := m.next[i]][i := r])
  }

  method CoreListRemove(item: Node, ghost pool: Pool, ghost m: Memory, ghost i: nat) returns (ret: Node)
    requires Stored(pool, m) && i < |m.next| && item == pool.nodes[i] && 0 <= m.next[i] != i
    modifies (set n | n in pool.nodes)
    ensures Stored(pool, Removed(m, i)) && ret == pool.nodes[m.next[i]]
    ensures ret == old(item.next) && item.next == old(item.next.next) && ret.next == null
    ensures item.info == old(item.next.info) && ret.info == old(item.info)
  {
    NextOf(pool, m, i);
    ghost var r: nat := m.next[i];
    ret := item.next;
    var tmp := item.info;
    SetInfo(item, ret.info, pool, m, i, m.info[r]);
    ghost var m1 := m.(info := m.info[i := m.info[r]]);
    SetInfo(ret, tmp, pool, m1, r, m.info[i]);
    ghost var m2 := m1.(info := m1.info[r := m.info[i]]);
    NextOf(pool, m2, i);
    NextOf(pool, m2, r);
    SetNext(item, item.next.next, pool, m2, i, m.next[r]);
    ghost var m3 := m2.(next := m2.next[i := m.next[r]]);
    SetNext(ret, null, pool, m3, r, -1);
  }

  method CoreListUndoRemove(itemRemoved: Node, itemModified: Node, ghost pool: Pool, ghost m: Memory, ghost r: nat,
          ghost i: nat)
    returns (ret: Node)
    requires Stored(pool, m) && r < |m.next| && itemRemoved == pool.nodes[r] && i < |m.next|
             && itemModified == pool.nodes[i]
    modifies (set n | n in pool.nodes)
    ensures Stored(pool, Reinserted(m, r, i)) && ret == itemRemoved
    ensures itemRemoved != itemModified ==>
              && itemModified.next == itemRemoved && itemRemoved.next == old(itemModified.next)
              && itemModified.info == old(itemRemoved.info) && itemRemoved.info == old(itemModified.info)
  {
    var tmp := itemRemoved.info;
    SetInfo(itemRemoved, itemModified.info, pool, m, r, m.info[i]);
    ghost var m1 := m.(info := m.info[r := m.info[i]]);
    SetInfo(itemModified, tmp, pool, m1, i, m.info[r]);
    ghost var m2 := m1.(info := m1.info[i := m.info[r]]);
    NextOf(pool, m2, i);
    SetNext(itemRemoved, itemModified.next, pool, m2, r, m.next[i]);
    ghost var m3 := m2.(next := m2.next[r := m.next[i]]);
    SetNext(itemModified, itemRemoved, pool, m3, i, r);
    ret := itemRemoved;
  }

  /** Undoing a remove gives back the very memory it started from. */
  lemma UndoRemoveRestores(m: Memory, i: nat)
    requires i < |m.next| == |m.info| && 0 <= m.next[i] < |m.next| && m.next[i] != i
    ensures Reinserted(Removed(m, i), m.next[i], i) == m
  {
    var r: nat := m.next[i];
    assert Swapped(Swapped(m.info, i, r), r, i) == m.info;
    assert m.next[i := m.next[r]][r := -1][r := m.next[r]][i := r] == m.next;
  }
}
