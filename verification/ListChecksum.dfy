/** What the CoreMark list benchmark looks up on its way, and the checksum it makes of it. */
module ListChecksum {
  import opened Bits
  import opened Cells
  import opened CoreList
  import opened ListOps
  import opened Sequences
  import Crc

  /** The data word of a node. */
  ghost function WordOf(m: Memory, node: nat): W16 {
    if node < |m.info| && m.info[node] < |m.data| then m.data[m.info[node]] else Zero(16)
  }

  ghost predicate Hit(m: Memory, node: nat, idx: int, data: W16) {
    node < |m.info| && m.info[node] < |m.data| == |m.idx| && Matches(m, node, idx, data)
  }

  /** The first position from k on whose node matches, or |s|. */
  ghost function Sought(m: Memory, s: seq<nat>, idx: int, data: W16, k: nat): nat
    decreases |s| - k
  {
    if k >= |s| then |s| else if Hit(m, s[k], idx, data) then k else Sought(m, s, idx, data, k + 1)
  }

  lemma {:induction false} FirstIsSought(pool: Pool, m: Memory, s: seq<nat>, idx: int, data: W16, k: nat, j: nat)
    requires WellFormed(pool, m) && InRange(|m.next|, s) && FirstMatch(pool, m, s, idx, data, k) && j <= k
    ensures Sought(m, s, idx, data, j) == k
    decreases k - j
  {
    hide Matches;
    if j < k { FirstIsSought(pool, m, s, idx, data, k, j + 1); }
  }

  function Plus(r: W16, n: int): W16 {
    FromNat(16, (Val(r) + n) % 0x1_0000)
  }

  ghost function FeedTimes(crc: W16, d: W16, n: nat): W16 {
    if n == 0 then crc else Crc.Feed(FeedTimes(crc, d, n - 1), d)
  }

  /** Feeding a word several times is feeding one message, the word repeated. */
  lemma {:induction false} FeedTimesIsMessage(crc: W16, d: W16, n: nat, msg: seq<bool>)
    requires |msg| == 16 * n && forall i :: 0 <= i < |msg| ==> msg[i] == d[i % 16]
    ensures FeedTimes(crc, d, n) == Crc.Feed(crc, msg)
  {
    hide Crc.Feed;
    if n == 0 {
      NothingFed(crc);
      assert msg == [];
    } else {
      var a, b := msg[..16 * (n - 1)], msg[16 * (n - 1)..];
      FeedTimesIsMessage(crc, d, n - 1, a);
      Crc.FeedAppend(crc, a, b);
      assert a + b == msg;
      forall j | 0 <= j < 16 ensures b[j] == d[j] {
        assert (16 * (n - 1) + j) % 16 == j;
      }
      assert b == d;
    }
  }

  lemma NothingFed(crc: W16)
    ensures Crc.Feed(crc, []) == crc
  {
  }

  // ----- The find loop

  /** The order after one round: the list is reversed, and the cell behind the one found, position k
      before the reversal, is pulled to the second place. */
  ghost function AfterRound(s: seq<nat>, k: nat): seq<nat> {
    if 0 < k < |s| then Spliced(Reversed(s), |s| - 1 - k) else Reversed(s)
  }

  /** The list t is s after one round that found position k: reversed, but for the node that stood
      before the one found, which comes second; those that the reversal put between the two move one
      place back. */
  ghost predicate Turned(s: seq<nat>, k: nat, t: seq<nat>) {
    && |t| == |s|
    && forall i :: 0 <= i < |s| ==>
         t[i] == if k == 0 || k >= |s| then s[|s| - 1 - i]
                 else if i == 0 then s[|s| - 1]
                 else if i == 1 then s[k - 1]
                 else if i <= |s| - k then s[|s| - i]
                 else s[|s| - 1 - i]
  }

  /** From position i after the splice back to the list before the reversal. */
  lemma TurnedPlace(n: nat, k: nat, i: nat)
    requires 0 < k < n && i < n
    ensures Origin(n - 1 - k, i) < n
    ensures n - 1 - Origin(n - 1 - k, i)
            == if i == 0 then n - 1 else if i == 1 then k - 1 else if i <= n - k then n - i else n - 1 - i
  {
  }

  lemma AfterRoundTurns(s: seq<nat>, k: nat)
    ensures Turned(s, k, AfterRound(s, k))
  {
    hide Spliced, Origin;
    var n := |s|;
    if 0 < k < n {
      var t := AfterRound(s, k);
      AfterRoundSplices(s, k, 0);
      forall i | 0 <= i < n
        ensures t[i] == if i == 0 then s[n - 1] else if i == 1 then s[k - 1]
                        else if i <= n - k then s[n - i] else s[n - 1 - i]
      {
        TurnedPlace(n, k, i);
        AfterRoundSplices(s, k, i);
      }
    }
  }

  lemma AfterRoundSplices(s: seq<nat>, k: nat, i: nat)
    requires 0 < k < |s| && i < |s|
    ensures |AfterRound(s, k)| == |s| && Origin(|s| - 1 - k, i) < |s|
    ensures AfterRound(s, k)[i] == s[|s| - 1 - Origin(|s| - 1 - k, i)]
  {
    hide Spliced;
    SplicedAt(Reversed(s), |s| - 1 - k, i);
  }

  /** The bit that one round adds. */
  ghost function RoundBit(m: Memory, s: seq<nat>, k: nat): nat {
    if k < |s| then (if WordOf(m, s[k])[0] then Bit(WordOf(m, s[k])[9]) else 0)
    else if |Reversed(s)| > 1 then Bit(WordOf(m, Reversed(s)[1])[8])
    else 0
  }

  datatype Search = Search(s: seq<nat>, idx: int, data: W16, ret: W16, found: nat, missed: nat)

  /** The state of the find loop after n rounds. */
  ghost function Rounds(m: Memory, s0: seq<nat>, idx0: int, junk: W16, n: nat): Search {
    if n == 0 then Search(s0, idx0, junk, Zero(16), 0, 0)
    else
      var p := Rounds(m, s0, idx0, junk, n - 1);
      var data := FromNat(16, (n - 1) % 0x100);
      var k := Sought(m, p.s, p.idx, data, 0);
      Search(AfterRound(p.s, k),
             if p.idx < 0 then p.idx else if p.idx == 0x7fff then -0x8000 else p.idx + 1,
             data,
             Plus(p.ret, RoundBit(m, p.s, k)),
             if k < |p.s| then p.found + 1 else p.found,
             if k < |p.s| then p.missed else p.missed + 1)
  }

  lemma NoRounds(m: Memory, s: seq<nat>, idx: int, junk: W16)
    ensures Rounds(m, s, idx, junk, 0) == Search(s, idx, junk, Zero(16), 0, 0)
  {
  }

  lemma RoundsNext(m: Memory, s0: seq<nat>, idx0: int, junk: W16, n: nat)
    ensures var p, data := Rounds(m, s0, idx0, junk, n), FromNat(16, n % 0x100);
            var k := Sought(m, p.s, p.idx, data, 0);
            Rounds(m, s0, idx0, junk, n + 1) ==
            Search(AfterRound(p.s, k), if p.idx < 0 then p.idx else if p.idx == 0x7fff then -0x8000 else p.idx + 1,
                   data, Plus(p.ret, RoundBit(m, p.s, k)),
                   if k < |p.s| then p.found + 1 else p.found, if k < |p.s| then p.missed else p.missed + 1)
  {
    hide AfterRound, FromNat, Sought, Plus, RoundBit;
  }

  /** What one round adds: bit 9 of the word found if its bit 0 is set; else, if nothing was found, bit
      8 of the word that is second after the reversal. */
  ghost predicate Scores(m: Memory, s: seq<nat>, k: nat) {
    if k < |s| then WordOf(m, s[k])[0] && WordOf(m, s[k])[9] else |s| > 1 && WordOf(m, s[|s| - 2])[8]
  }

  lemma RoundScores(m: Memory, s: seq<nat>, k: nat)
    ensures RoundBit(m, s, k) == if Scores(m, s, k) then 1 else 0
  {
    hide WordOf;
  }

  /** One more round: the search sees the order of the round before, the round number as a byte and the
      idx counted up, a negative one excepted. */
  lemma OneRound(m: Memory, s0: seq<nat>, idx0: int, junk: W16, n: nat)
    ensures var p, q := Rounds(m, s0, idx0, junk, n), Rounds(m, s0, idx0, junk, n + 1);
            var k := Sought(m, p.s, p.idx, FromNat(16, n % 0x100), 0);
            && Turned(p.s, k, q.s) && q.data == FromNat(16, n % 0x100)
            && q.idx == (if p.idx < 0 then p.idx else if p.idx + 1 == 0x8000 then -0x8000 else p.idx + 1)
            && q.found == p.found + (if k < |p.s| then 1 else 0)
            && q.missed == p.missed + (if k < |p.s| then 0 else 1)
            && Val(q.ret) == (Val(p.ret) + if Scores(m, p.s, k) then 1 else 0) % 0x1_0000
  {
    hide AfterRound, FromNat, Sought, Scores, Rounds, Plus, RoundBit, Turned, Val;
    var p := Rounds(m, s0, idx0, junk, n);
    var k := Sought(m, p.s, p.idx, FromNat(16, n % 0x100), 0);
    RoundsNext(m, s0, idx0, junk, n);
    PlusValue(p.ret, RoundBit(m, p.s, k));
    RoundScores(m, p.s, k);
    AfterRoundTurns(p.s, k);
  }

  lemma PlusValue(r: W16, n: int)
    ensures Val(Plus(r, n)) == (Val(r) + n) % 0x1_0000
  {
    hide Val;
    Pow2Sixteen();
    ValFromNat(16, (Val(r) + n) % 0x1_0000);
  }

  lemma Pow2Sixteen()
    ensures Pow2(16) == 0x1_0000
  {
    assert Pow2(16) == 2 * Pow2(15) == 4 * Pow2(14) == 8 * Pow2(13) == 16 * Pow2(12);
    assert Pow2(12) == 2 * Pow2(11) == 4 * Pow2(10) == 8 * Pow2(9) == 16 * Pow2(8);
    assert Pow2(8) == 2 * Pow2(7) == 4 * Pow2(6) == 8 * Pow2(5) == 16 * Pow2(4);
    assert Pow2(4) == 2 * Pow2(3) == 4 * Pow2(2) == 8 * Pow2(1) == 16 * Pow2(0);
  }

  /** Every round finds or misses, and the order stays one of as many nodes. */
  lemma {:induction false} FoundOrMissed(m: Memory, s0: seq<nat>, idx0: int, junk: W16, n: nat)
    ensures var f := Rounds(m, s0, idx0, junk, n); f.found + f.missed == n && |f.s| == |s0|
  {
    hide Rounds, Sought, FromNat, Val, Scores;
    if n > 0 {
      FoundOrMissed(m, s0, idx0, junk, n - 1);
      OneRound(m, s0, idx0, junk, n - 1);
    } else {
      NoRounds(m, s0, idx0, junk);
    }
  }

  /** The checksum when the find loop is over. */
  ghost function FindSum(f: Search): W16 {
    Plus(f.ret, f.found * 4 - f.missed)
  }

  lemma FindSumValue(f: Search)
    ensures Val(FindSum(f)) == (Val(f.ret) + 4 * f.found - f.missed) % 0x1_0000
    ensures FindSum(f) == Plus(f.ret, f.found * 4 - f.missed)
  {
    PlusValue(f.ret, f.found * 4 - f.missed);
  }

  // ----- Remove, and the last walk

  /** The checksum over the list while one item, the third, is out: the head's word, once for every
      cell from the one found on. */
  ghost function RemovedSum(m: Memory, s: seq<nat>, idx: int, data: W16, ret: W16): W16
    requires |s| >= 3 && s[1] < |m.info| && s[2] < |m.info|
  {
    var m', u := m.(info := Swapped(m.info, s[1], s[2])), s[..2] + s[3..];
    var k := Sought(m', u, idx, data, 0);
    FeedTimes(ret, WordOf(m', u[0]), if k < |u| then |u| - k else |u| - 1)
  }

  /** The same in terms of the list that the benchmark started with: the second cell is the one that is
      out, the search runs over the others, and the head's word is fed once for every cell from the
      one found on, or from the second remaining one. */
  lemma RemovedSumSkipsSecond(m: Memory, s: seq<nat>, idx: int, data: W16, ret: W16)
    requires |s| >= 3 && InRange(|m.info|, s) && Distinct(s)
    ensures var rest := [s[0]] + s[2..];
            var k := Sought(m, rest, idx, data, 0);
            RemovedSum(m, s, idx, data, ret)
            == FeedTimes(ret, WordOf(m, s[0]), if k < |rest| then |rest| - k else |rest| - 1)
  {
    hide FeedTimes, Sought;
    var m', u, rest := m.(info := Swapped(m.info, s[1], s[2])), s[..2] + s[3..], [s[0]] + s[2..];
    assert |u| == |rest| == |s| - 1;
    forall i | 0 <= i < |u| ensures u[i] < |m.info| && rest[i] < |m.info| && m'.info[u[i]] == m.info[rest[i]] {
      assert i > 1 ==> u[i] == s[i + 1] == rest[i];
      assert i == 1 ==> u[i] == s[1] && rest[i] == s[2];
      assert i == 0 ==> u[i] == s[0] == rest[i];
      if i != 1 { OtherCell(s, if i == 0 then 0 else i + 1); }
    }
    SoughtSameCells(m', u, m, rest, idx, data, 0);
  }

  lemma OtherCell(s: seq<nat>, i: nat)
    requires |s| >= 3 && Distinct(s) && i < |s| && i != 1 && i != 2
    ensures s[i] != s[1] && s[i] != s[2] && s[1] != s[2]
  {
  }

  lemma {:induction false} SoughtSameCells(m: Memory, s: seq<nat>, m': Memory, s': seq<nat>, idx: int, data: W16,
          k: nat)
    requires |s| == |s'| && m'.data == m.data && m'.idx == m.idx
    requires forall i :: 0 <= i < |s| ==> s[i] < |m.info| && s'[i] < |m'.info| && m.info[s[i]] == m'.info[s'[i]]
    ensures Sought(m, s, idx, data, k) == Sought(m', s', idx, data, k)
    decreases |s| - k
  {
    if k < |s| { SoughtSameCells(m, s, m', s', idx, data, k + 1); }
  }

  /** A search depends on the cells alone, not on the links. */
  lemma {:induction false} SoughtWithoutLinks(m: Memory, m': Memory, s: seq<nat>, idx: int, data: W16, k: nat)
    requires m'.info == m.info && m'.data == m.data && m'.idx == m.idx
    ensures Sought(m, s, idx, data, k) == Sought(m', s, idx, data, k)
    decreases |s| - k
  {
    if k < |s| { SoughtWithoutLinks(m, m', s, idx, data, k + 1); }
  }
}
