/** The CoreMark linked list on the heap, and its abstract memory image. */
module CoreList {
  import opened Bits
  import opened Cells

  /** struct list_data_s */
  class Info {
    var data16: W16
    var idx: int

    constructor (data16: W16, idx: int)
      ensures this.data16 == data16 && this.idx == idx
    {
      this.data16, this.idx := data16, idx;
    }
  }

  /** struct list_head_s */
  class Node {
    var next: Node?
    var info: Info

    constructor (info: Info)
      ensures this.info == info && next == null
    {
      this.info := info;
      next := null;
    }
  }

  /** The part of core_results that the comparators read and write. */
  class Results {
    var crc: W16
    var crcstate: W16
    var crcmatrix: W16
    const kernels: Kernels

    constructor (k: Kernels)
      ensures kernels == k && Current() == Sums(Zero(16), Zero(16), Zero(16))
    {
      kernels := k;
      crc, crcstate, crcmatrix := Zero(16), Zero(16), Zero(16);
    }

    ghost function Current(): Sums
      reads this
    {
      Sums(crc, crcstate, crcmatrix)
    }
  }

  // ----- The memory image

  /** The nodes and data cells of a list, numbered. */
  datatype Pool = Pool(nodes: seq<Node>, infos: seq<Info>)

  /** What a pool holds: next and info fields as numbers (-1 for null), data words, index fields. */
  datatype Memory = Memory(next: seq<int>, info: seq<nat>, data: seq<W16>, idx: seq<int>)

  ghost predicate Distinct<T>(s: seq<T>) {
    forall i, j :: 0 <= i < j < |s| ==> s[i] != s[j]
  }

  ghost function Pointer(pool: Pool, k: int): Node? {
    if 0 <= k < |pool.nodes| then pool.nodes[k] else null
  }

  ghost predicate WellFormed(pool: Pool, m: Memory) {
    && Distinct(pool.nodes) && Distinct(pool.infos)
    && |m.next| == |m.info| == |pool.nodes| && |m.data| == |m.idx| == |pool.infos|
    && (forall k :: 0 <= k < |m.next| ==> -1 <= m.next[k] < |m.next|)
    && (forall k :: 0 <= k < |m.info| ==> m.info[k] < |m.data|)
  }

  /** The heap holds the memory image m. */
  ghost predicate Stored(pool: Pool, m: Memory)
    reads pool.nodes, pool.infos
  {
    && WellFormed(pool, m)
    && (forall k :: 0 <= k < |pool.nodes| ==> pool.nodes[k].next == Pointer(pool, m.next[k]))
    && (forall k :: 0 <= k < |pool.nodes| ==> pool.nodes[k].info == pool.infos[m.info[k]])
    && (forall j :: 0 <= j < |pool.infos| ==> pool.infos[j].data16 == m.data[j])
    && (forall j :: 0 <= j < |pool.infos| ==> pool.infos[j].idx == m.idx[j])
  }

  /** The list from node number head visits exactly the nodes s, in order, and ends in null. */
  ghost predicate IsList(next: seq<int>, head: int, s: seq<nat>) {
    head == First(s) && InRange(|next|, s) && Chain(next, s) && (s != [] ==> next[s[|s| - 1]] == -1)
  }

  ghost predicate InRange(n: nat, s: seq<nat>) {
    forall i :: 0 <= i < |s| ==> s[i] < n
  }

  ghost predicate Chain(next: seq<int>, s: seq<nat>)
    requires InRange(|next|, s)
  {
    forall i :: 0 <= i < |s| - 1 ==> next[s[i]] == s[i + 1]
  }

  ghost function First(s: seq<nat>): int {
    if s == [] then -1 else s[0]
  }

  ghost function Last(s: seq<nat>): int {
    if s == [] then -1 else s[|s| - 1]
  }

  /** Redirect the link of node number k. */
  method SetNext(node: Node, to: Node?, ghost pool: Pool, ghost m: Memory, ghost k: nat, ghost t: int)
    requires Stored(pool, m) && k < |m.next| && node == pool.nodes[k] && -1 <= t < |m.next| && to == Pointer(pool, t)
    modifies (set n | n in pool.nodes)`next
    ensures Stored(pool, m.(next := m.next[k := t]))
  {
    node.next := to;
  }

  /** Give node number k another cell. */
  method SetInfo(node: Node, to: Info, ghost pool: Pool, ghost m: Memory, ghost k: nat, ghost t: nat)
    requires Stored(pool, m) && k < |m.next| && node == pool.nodes[k] && t < |m.data| && to == pool.infos[t]
    modifies (set n | n in pool.nodes)`info
    ensures Stored(pool, m.(info := m.info[k := t]))
  {
    node.info := to;
  }
}
