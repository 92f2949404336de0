/** CoreMark's state machine benchmark: scanning a buffer, corrupting it and undoing the corruption. */
module CoreState {
  import opened StateGrammar
  import opened Modular
  import Bits
  import Crc

  const STATES := 8

  /** enum CORE_STATE */
  function Index(s: State): (i: nat)
    ensures i < STATES
  {
    match s
    case Start => 0
    case Invalid => 1
    case S1 => 2
    case S2 => 3
    case Int => 4
    case Float => 5
    case Exponent => 6
    case Scientific => 7
  }

  lemma IndexInjective(a: State, b: State)
    ensures Index(a) == Index(b) <==> a == b
  {
  }

  // ----- Transition counts

  /** By how much reading c in state s raises the counter of state q. */
  function Ticks(s: State, c: Byte, q: State): nat {
    match s
    case Start => if q == Start || (q == Invalid && Delta(s, c) == Invalid) then 1 else 0
    case Int => if q == Int && Delta(s, c) != Int then 1 else 0
    case Float => if q == Float && Delta(s, c) != Float then 1 else 0
    case Scientific => if q == Invalid && Delta(s, c) == Invalid then 1 else 0
    case Invalid => 0
    case _ => if q == s then 1 else 0
  }

  function Tally(text: seq<Byte>, q: State): nat {
    if text == [] then 0 else Tally(Pop(text), q) + Ticks(Reached(Pop(text)), Last(text), q)
  }

  function Rank(s: State): nat {
    match s
    case Start => 0
    case S1 => 1
    case Int => 2
    case Float => 3
    case S2 => 4
    case Exponent => 5
    case Scientific => 6
    case Invalid => 7
  }

  /** The machine was in state q and moved on. */
  ghost predicate Left(text: seq<Byte>, q: State) {
    exists k: nat :: k < |text| && LeftAt(text, q, k)
  }

  ghost predicate LeftAt(text: seq<Byte>, q: State, k: nat)
    requires k < |text|
  {
    Reached(text[..k]) == q && Reached(text[..k + 1]) != q
  }

  lemma LeftGrows(text: seq<Byte>, q: State)
    requires text != []
    ensures Left(text, q) <==> Left(Pop(text), q) || (Reached(Pop(text)) == q && Reached(text) != q)
  {
    hide Reached;
    var p := Pop(text);
    forall k: nat | k < |text|
      ensures k < |p| ==> (LeftAt(text, q, k) <==> LeftAt(p, q, k))
      ensures k == |p| ==> (LeftAt(text, q, k) <==> Reached(p) == q && Reached(text) != q)
    {
      assert text[..|text|] == text;
      if k < |p| { assert text[..k] == p[..k] && text[..k + 1] == p[..k + 1]; }
    }
    if Left(p, q) {
      var k: nat :| k < |p| && LeftAt(p, q, k);
      assert LeftAt(text, q, k);
    }
    if Reached(p) == q && Reached(text) != q { assert LeftAt(text, q, |p|); }
  }

  /** Each of six counters tells whether its state was left, no state being entered twice; the
      counter of Scientific never moves. */
  lemma {:induction false} TallyIsLeaving(text: seq<Byte>, q: State)
    ensures q != Invalid && q != Scientific ==> Tally(text, q) == if Left(text, q) then 1 else 0
    ensures q == Scientific ==> Tally(text, q) == 0
    ensures Left(text, q) ==> Rank(Reached(text)) > Rank(q)
  {
    if text != [] {
      hide Left, Digit, Sign, Mark;
      TallyIsLeaving(Pop(text), q);
      LeftGrows(text, q);
    }
  }

  /** The counter of Invalid sees only the tokens that fail at their first byte or after a complete
      exponent. */
  lemma {:induction false} TallyOfInvalid(text: seq<Byte>)
    ensures Tally(text, Invalid) == if Reached(text) == Invalid && FailedFrom(text) in {Start, Scientific} then 1 else 0
    ensures Reached(text) != Invalid ==> Tally(text, Invalid) == 0
  {
    if text != [] { TallyOfInvalid(Pop(text)); }
  }

  /** The last valid state of a text. */
  function FailedFrom(text: seq<Byte>): State {
    if text == [] then Start
    else if Reached(Pop(text)) == Invalid then FailedFrom(Pop(text)) else Reached(Pop(text))
  }

  // ----- One token

  /** A token: the text from start to stop, the state it ends in, and where the scan goes on. */
  datatype Piece = Piece(start: nat, stop: nat, next: nat, state: State)

  /** The token is as long as can be: it ends before a comma, which is skipped, or at the end of the
      buffer, or one past the first byte that makes it invalid. */
  ghost predicate Token(b: seq<Byte>, p: Piece) {
    && p.start <= p.stop < |b|
    && p.state == Reached(b[p.start..p.stop])
    && (forall k :: p.start <= k < p.stop ==> b[k] != NUL && b[k] != COMMA && Reached(b[p.start..k]) != Invalid)
    && (if p.state == Invalid then p.next == p.stop
        else if b[p.stop] == COMMA then p.next == p.stop + 1
        else b[p.stop] == NUL && p.next == p.stop)
  }

  /** Nothing about a token is left open. */
  lemma TokenUnique(b: seq<Byte>, p: Piece, q: Piece)
    requires Token(b, p) && Token(b, q) && p.start == q.start
    ensures p == q
  {
  }

  ghost predicate Ends(b: seq<Byte>, z: nat) {
    z < |b| && b[z] == NUL
  }

  /** The switch of core_state_transition, for one byte. */
  method Switch(state: State, c: Byte, counts: array<nat>) returns (s: State)
    requires counts.Length == STATES && state != Invalid
    modifies counts
    ensures s == Delta(state, c)
    ensures forall q: State :: counts[Index(q)] == old(counts[Index(q)]) + Ticks(state, c, q)
  {
    hide Digit, Sign, Mark;
    s := state;
    var at := Index(state);
    match state
    case Start =>
      if Digit(c) {
        s := Int;
      } else if Sign(c) {
        s := S1;
      } else if c == DOT {
        s := Float;
      } else {
        s := Invalid;
        counts[1] := counts[1] + 1;
      }
      counts[0] := counts[0] + 1;
    case S1 =>
      s := if Digit(c) then Int else if c == DOT then Float else Invalid;
      counts[2] := counts[2] + 1;
    case Int =>
      if c == DOT {
        s := Float;
        counts[4] := counts[4] + 1;
      } else if !Digit(c) {
        s := Invalid;
        counts[4] := counts[4] + 1;
      }
    case Float =>
      if Mark(c) {
        s := S2;
        counts[5] := counts[5] + 1;
      } else if !Digit(c) {
        s := Invalid;
        counts[5] := counts[5] + 1;
      }
    case S2 =>
      s := if Sign(c) then Exponent else Invalid;
      counts[3] := counts[3] + 1;
    case Exponent =>
      s := if Digit(c) then Scientific else Invalid;
      counts[6] := counts[6] + 1;
    case Scientific =>
      if !Digit(c) {
        s := Invalid;
        counts[1] := counts[1] + 1;
      }
  }

  /** The scan of a token has come from start to stop without reason to end before. */
  ghost predicate Scanned(b: seq<Byte>, start: nat, stop: nat) {
    start <= stop < |b|
    && forall k :: start <= k < stop ==> b[k] != NUL && b[k] != COMMA && Reached(b[start..k]) != Invalid
  }

  lemma Grown(b: seq<Byte>, start: nat, k: nat)
    requires start <= k < |b|
    ensures Reached(b[start..k + 1]) == Delta(Reached(b[start..k]), b[k])
    ensures forall q :: Tally(b[start..k + 1], q) == Tally(b[start..k], q) + Ticks(Reached(b[start..k]), b[k], q)
    ensures Scanned(b, start, k) && Reached(b[start..k]) != Invalid && b[k] != NUL && b[k] != COMMA && k + 1 < |b| ==>
              Scanned(b, start, k + 1)
  {
    assert Pop(b[start..k + 1]) == b[start..k];
  }

  lemma ScannedToken(b: seq<Byte>, p: Piece)
    requires Scanned(b, p.start, p.stop) && p.state == Reached(b[p.start..p.stop])
    requires if p.state == Invalid then p.next == p.stop
             else if b[p.stop] == COMMA then p.next == p.stop + 1 else b[p.stop] == NUL && p.next == p.stop
    ensures Token(b, p)
  {
  }

  lemma StartsScanned(b: seq<Byte>, start: nat)
    requires start < |b|
    ensures Scanned(b, start, start) && Reached(b[start..start]) == Start && forall q :: Tally(b[start..start], q) == 0
  {
  }

  ghost predicate Apart(a: object, b: object) {
    a != b
  }

  /** core_state_transition: instr goes from start to next. */
  method Transition(buf: array<Byte>, start: nat, counts: array<nat>, ghost z: nat)
    returns (state: State, next: nat, ghost piece: Piece)
    requires counts.Length == STATES && Apart(buf, counts) && start <= z && Ends(buf[..], z)
    modifies counts
    ensures Token(buf[..], piece) && piece.start == start && piece.next == next && piece.state == state
    ensures forall q: State :: counts[Index(q)] == old(counts[Index(q)]) + Tally(buf[start..piece.stop], q)
  {
    hide Reached, Tally, Ticks, Delta, Token, Scanned;
    ghost var b := buf[..];
    state := Start;
    var str := start;
    StartsScanned(b, start);
    while buf[str] != NUL && state != Invalid
      invariant buf[..] == b && start <= str <= z && Scanned(b, start, str) && state == Reached(b[start..str])
      invariant forall q: State :: counts[Index(q)] == old(counts[Index(q)]) + Tally(b[start..str], q)
      decreases z - str
    {
      var c := buf[str];
      assert b[str] == c;
      if c == COMMA {
        piece := Piece(start, str, str + 1, state);
        ScannedToken(b, piece);
        return state, str + 1, piece;
      }
      Grown(b, start, str);
      state := Switch(state, c, counts);
      assert buf[..] == b;
      str := str + 1;
    }
    next := str;
    assert b[str] == buf[str];
    piece := Piece(start, str, str, state);
    ScannedToken(b, piece);
  }

  // ----- The scan of a buffer

  /** The tokens cover the buffer up to position end, one after the other and without a gap. */
  ghost predicate Partition(b: seq<Byte>, pieces: seq<Piece>, end: nat) {
    if pieces == [] then end == 0
    else
      var last := pieces[|pieces| - 1];
      Token(b, last) && last.next == end && last.start < end && Partition(b, pieces[..|pieces| - 1], last.start)
  }

  /** How many tokens ended in state q. */
  ghost function Finals(pieces: seq<Piece>, q: State): nat {
    if pieces == [] then 0
    else Finals(pieces[..|pieces| - 1], q) + (if pieces[|pieces| - 1].state == q then 1 else 0)
  }

  ghost function Tallies(b: seq<Byte>, pieces: seq<Piece>, end: nat, q: State): nat
    requires Partition(b, pieces, end)
  {
    if pieces == [] then 0
    else
      var last := pieces[|pieces| - 1];
      Tallies(b, pieces[..|pieces| - 1], last.start, q) + Tally(b[last.start..last.stop], q)
  }

  ghost function EndedIn(pieces: seq<Piece>, q: State): set<nat> {
    set k: nat | k < |pieces| && pieces[k].state == q
  }

  lemma EndedOneMore(pieces: seq<Piece>, p: Piece, q: State)
    ensures EndedIn(pieces + [p], q) == if p.state == q then EndedIn(pieces, q) + {|pieces|} else EndedIn(pieces, q)
  {
  }

  /** Finals counts tokens. */
  lemma {:induction false} FinalsIsCount(pieces: seq<Piece>, q: State)
    ensures Finals(pieces, q) == |EndedIn(pieces, q)|
  {
    if pieces == [] {
      assert EndedIn([], q) == {};
    } else {
      var before, last := pieces[..|pieces| - 1], pieces[|pieces| - 1];
      FinalsIsCount(before, q);
      EndedOneMore(before, last, q);
      assert before + [last] == pieces && |before| !in EndedIn(before, q);
      hide EndedIn;
    }
  }

  /** The tokens on which the machine left state q. */
  ghost function LeftIn(b: seq<Byte>, pieces: seq<Piece>, q: State): set<nat> {
    set k: nat | k < |pieces| && pieces[k].start <= pieces[k].stop <= |b| && Left(b[pieces[k].start..pieces[k].stop], q)
  }

  lemma LeftOneMore(b: seq<Byte>, pieces: seq<Piece>, p: Piece, q: State)
    requires p.start <= p.stop <= |b|
    ensures LeftIn(b, pieces + [p], q)
            == if Left(b[p.start..p.stop], q) then LeftIn(b, pieces, q) + {|pieces|} else LeftIn(b, pieces, q)
    ensures |pieces| !in LeftIn(b, pieces, q)
  {
    hide Left;
  }

  /** For six states Tallies counts tokens as well: those on which the machine left the state. */
  lemma {:induction false} TalliesIsCount(b: seq<Byte>, pieces: seq<Piece>, end: nat, q: State)
    requires Partition(b, pieces, end) && q != Invalid && q != Scientific
    ensures Tallies(b, pieces, end, q) == |LeftIn(b, pieces, q)|
  {
    hide Left, Tally, Reached, Token, LeftIn;
    if pieces == [] {
      NoneLeft(b, q);
    } else {
      var before, last := pieces[..|pieces| - 1], pieces[|pieces| - 1];
      LastInside(b, pieces, end);
      TalliesIsCount(b, before, last.start, q);
      TallyIsLeaving(b[last.start..last.stop], q);
      LeftOneMore(b, before, last, q);
      assert before + [last] == pieces;
    }
  }

  lemma NoneLeft(b: seq<Byte>, q: State)
    ensures LeftIn(b, [], q) == {}
  {
  }

  lemma LastInside(b: seq<Byte>, pieces: seq<Piece>, end: nat)
    requires Partition(b, pieces, end) && pieces != []
    ensures var last := pieces[|pieces| - 1];
            last.start <= last.stop <= |b| && Partition(b, pieces[..|pieces| - 1], last.start)
  {
  }

  /** A NUL is never skipped. */
  lemma TokenStopsAtNul(b: seq<Byte>, p: Piece, z: nat)
    requires Token(b, p) && Ends(b, z) && p.start < z && b[p.start] != NUL
    ensures p.start < p.next <= z
  {
    assert b[p.start..p.start] == [];
  }

  lemma PartitionOnto(b: seq<Byte>, pieces: seq<Piece>, p: Piece)
    requires Partition(b, pieces, p.start) && Token(b, p) && p.start < p.next
    ensures Partition(b, pieces + [p], p.next)
    ensures forall q :: Finals(pieces + [p], q) == Finals(pieces, q) + (if p.state == q then 1 else 0)
    ensures forall q ::
              Tallies(b, pieces + [p], p.next, q) == Tallies(b, pieces, p.start, q) + Tally(b[p.start..p.stop], q)
  {
    assert (pieces + [p])[..|pieces + [p]| - 1] == pieces;
  }

  ghost predicate FirstNul(b: seq<Byte>, z: nat) {
    Ends(b, z) && forall k :: 0 <= k < z ==> b[k] != NUL
  }

  /** One of the two scans of core_bench_state. */
  method Scan(buf: array<Byte>, final: array<nat>, track: array<nat>, ghost z: nat) returns (ghost pieces: seq<Piece>)
    requires final.Length == track.Length == STATES && final != track && Apart(buf, final) && Apart(buf, track)
             && FirstNul(buf[..], z)
    modifies final, track
    ensures Partition(buf[..], pieces, z)
    ensures forall q: State :: final[Index(q)] == old(final[Index(q)]) + Finals(pieces, q)
    ensures forall q: State :: track[Index(q)] == old(track[Index(q)]) + Tallies(buf[..], pieces, z, q)
  {
    hide Token, Tally, Partition, Finals, Tallies, Index;
    ghost var b := buf[..];
    var p := 0;
    pieces := [];
    NoPieces(b);
    while buf[p] != NUL
      invariant buf[..] == b && 0 <= p <= z && Partition(b, pieces, p)
      invariant forall q: State :: final[Index(q)] == old(final[Index(q)]) + Finals(pieces, q)
      invariant forall q: State :: track[Index(q)] == old(track[Index(q)]) + Tallies(b, pieces, p, q)
      decreases z - p
    {
      ghost var p0 := p;
      var state;
      ghost var piece;
      state, p, piece := Transition(buf, p, track, z);
      assert buf[..] == b;
      TokenStopsAtNul(b, piece, z);
      PartitionOnto(b, pieces, piece);
      Count(final, state);
      assert buf[..] == b;
      pieces := pieces + [piece];
    }
    assert p == z by { assert b[p] == buf[p]; }
  }

  lemma NoPieces(b: seq<Byte>)
    ensures Partition(b, [], 0) && forall q :: Finals([], q) == 0 && Tallies(b, [], 0, q) == 0
  {
  }

  method Count(counts: array<nat>, s: State)
    requires counts.Length == STATES
    modifies counts
    ensures forall q: State :: counts[Index(q)] == old(counts[Index(q)]) + (if s == q then 1 else 0)
  {
    counts[Index(s)] := counts[Index(s)] + 1;
    forall q: State ensures Index(q) == Index(s) <==> q == s { IndexInjective(q, s); }
  }

  // ----- Corruption

  function Flip(c: Byte, seed: Byte): Byte {
    c ^ seed
  }

  function Weight(k: nat): Byte
    requires k < 8
  {
    if k == 0 then 1 else if k == 1 then 2 else if k == 2 then 4 else if k == 3 then 8
    else if k == 4 then 16 else if k == 5 then 32 else if k == 6 then 64 else 128
  }

  predicate HasBit(c: Byte, k: nat)
    requires k < 8
  {
    c & Weight(k) != 0
  }

  lemma SingleBit(c: Byte, k: nat)
    requires k < 8
    ensures c & Weight(k) == 0 || c & Weight(k) == Weight(k)
    ensures Weight(k) != 0
  {
  }

  lemma XorUnderMask(c: Byte, d: Byte, w: Byte)
    ensures (c ^ d) & w == (c & w) ^ (d & w)
    ensures w ^ w == 0 && w ^ 0 == w == 0 ^ w
  {
  }

  /** Exactly the bits of the seed change. */
  lemma FlipBits(c: Byte, seed: Byte, k: nat)
    requires k < 8
    ensures HasBit(Flip(c, seed), k) <==> HasBit(c, k) != HasBit(seed, k)
  {
    XorUnderMask(c, seed, Weight(k));
    SingleBit(c, k);
    SingleBit(seed, k);
    hide Weight;
  }

  /** A byte that corruption reaches. */
  predicate Touched(b: seq<Byte>, blksize: nat, step: nat, i: nat)
    requires step > 0
  {
    i < |b| && i < blksize && i % step == 0 && b[i] != COMMA
  }

  /** Flip the bits of seed in every byte that is not a comma, at every multiple of step. */
  function Corrupted(b: seq<Byte>, blksize: nat, step: nat, seed: Byte): (r: seq<Byte>)
    requires step > 0
    ensures |r| == |b|
  {
    seq(|b|, i requires 0 <= i < |b| =>
      if Touched(b, blksize, step, i) then Flip(b[i], seed) else b[i])
  }

  /** A seed of zero corrupts nothing. */
  lemma ZeroSeed(b: seq<Byte>, blksize: nat, step: nat)
    requires step > 0
    ensures Corrupted(b, blksize, step, 0) == b
  {
    hide Flip, Touched;
    forall i | 0 <= i < |b| ensures Corrupted(b, blksize, step, 0)[i] == b[i] {
      FlipZero(b[i]);
    }
  }

  lemma FlipZero(c: Byte)
    ensures Flip(c, 0) == c
  {
  }

  lemma FlipTogether(c: Byte, a: Byte, d: Byte)
    ensures Flip(Flip(c, a), d) == Flip(c, a ^ d)
    ensures Flip(c, a ^ d) == Flip(c, a) <==> d == 0
  {
  }

  /** Two passes are one pass with both seeds together, exactly when no touched byte turns into a
      comma in between, unless the second seed is zero. */
  lemma TwoPassesExactly(b: seq<Byte>, blksize: nat, step: nat, seed1: Byte, seed2: Byte)
    requires step > 0
    ensures Corrupted(Corrupted(b, blksize, step, seed1), blksize, step, seed2)
            == Corrupted(b, blksize, step, seed1 ^ seed2)
            <==> forall i :: 0 <= i < |b| && Touched(b, blksize, step, i) ==>
                   b[i] ^ seed1 != COMMA || seed2 == 0
  {
    var c := Corrupted(b, blksize, step, seed1);
    var d, e := Corrupted(c, blksize, step, seed2), Corrupted(b, blksize, step, seed1 ^ seed2);
    forall i | 0 <= i < |b|
      ensures d[i] == e[i] <==> (Touched(b, blksize, step, i) ==> b[i] ^ seed1 != COMMA || seed2 == 0)
    {
      FlipTogether(b[i], seed1, seed2);
    }
  }

  method Corrupt(buf: array<Byte>, blksize: nat, step: nat, seed: Byte)
    requires blksize <= buf.Length && step > 0
    modifies buf
    ensures buf[..] == Corrupted(old(buf[..]), blksize, step, seed)
    ensures forall i :: 0 <= i < buf.Length ==>
              if i < blksize && i % step == 0 && old(buf[i]) != COMMA
              then forall k :: 0 <= k < 8 ==> (HasBit(buf[i], k) <==> HasBit(old(buf[i]), k) != HasBit(seed, k))
              else buf[i] == old(buf[i])
  {
    hide HasBit, Corrupted, Flip, Touched;
    ghost var b, k := buf[..], 0;
    ghost var c := Corrupted(b, blksize, step, seed);
    var p := 0;
    while p < blksize
      invariant p == k * step
      invariant forall i :: 0 <= i < buf.Length ==> buf[i] == if i < p then c[i] else b[i]
    {
      CorruptedStride(b, blksize, step, seed, k);
      if buf[p] != COMMA {
        buf[p] := buf[p] ^ seed;
      }
      p := p + step;
      k := k + 1;
    }
    CorruptedBits(b, blksize, step, seed);
  }

  /** What corruption does from one multiple of step to the next. */
  lemma CorruptedStride(b: seq<Byte>, blksize: nat, step: nat, seed: Byte, k: nat)
    requires step > 0 && k * step < blksize <= |b|
    ensures (k + 1) * step == k * step + step
    ensures var c, p := Corrupted(b, blksize, step, seed), k * step;
            && c[p] == (if b[p] != COMMA then b[p] ^ seed else b[p])
            && forall i :: p < i < p + step && i < |b| ==> c[i] == b[i]
  {
    Stride(k, step);
  }

  lemma CorruptedBits(b: seq<Byte>, blksize: nat, step: nat, seed: Byte)
    requires step > 0 && blksize <= |b|
    ensures var c := Corrupted(b, blksize, step, seed);
            forall i :: 0 <= i < |b| ==>
              if i < blksize && i % step == 0 && b[i] != COMMA
              then forall k :: 0 <= k < 8 ==> (HasBit(c[i], k) <==> HasBit(b[i], k) != HasBit(seed, k))
              else c[i] == b[i]
    ensures forall i :: blksize <= i < |b| ==> Corrupted(b, blksize, step, seed)[i] == b[i]
  {
    hide Flip, HasBit;
    forall i, k | 0 <= i < |b| && Touched(b, blksize, step, i) && 0 <= k < 8
      ensures HasBit(Corrupted(b, blksize, step, seed)[i], k) <==> HasBit(b[i], k) != HasBit(seed, k)
    {
      FlipBits(b[i], seed, k);
    }
  }

  lemma Stride(k: nat, step: nat)
    requires step > 0
    ensures (k + 1) * step == k * step + step
    ensures forall i :: k * step <= i < k * step + step ==> (i % step == 0 <==> i == k * step)
  {
    forall i | k * step <= i < k * step + step ensures i % step == 0 <==> i == k * step {
      DivModUnique(i, step, k, i - k * step);
    }
  }

  lemma FlipCancels(c: Byte, a: Byte)
    ensures Flip(Flip(c, a), a) == c && Flip(c, Flip(c, a)) == a
  {
  }

  lemma FlipTwice(c: Byte, a: Byte, b: Byte)
    ensures Flip(Flip(c, a), b) == c <==> a == b
  {
    hide Flip;
    FlipCancels(c, a);
    FlipCancels(Flip(c, a), a);
    FlipCancels(Flip(c, a), b);
  }

  /** The second pass undoes the first exactly when the two seeds agree and no byte that was touched
      turned into a comma, unless no byte was touched at all. */
  lemma RestoredExactly(b: seq<Byte>, blksize: nat, step: nat, seed1: Byte, seed2: Byte)
    requires step > 0
    ensures Corrupted(Corrupted(b, blksize, step, seed1), blksize, step, seed2) == b
            <==> forall i :: 0 <= i < |b| && i < blksize && i % step == 0 && b[i] != COMMA ==>
                   seed1 == seed2 && Flip(b[i], seed1) != COMMA
  {
    hide Flip;
    var c := Corrupted(b, blksize, step, seed1);
    var d := Corrupted(c, blksize, step, seed2);
    forall i | 0 <= i < |b|
      ensures d[i] == b[i] <==>
                (i < blksize && i % step == 0 && b[i] != COMMA ==> seed1 == seed2 && Flip(b[i], seed1) != COMMA)
    {
      FlipTwice(b[i], seed1, seed2);
    }
  }

  // ----- The benchmark

  /** The message that is checksummed: for each state the two counts as 32-bit words. */
  ghost predicate Message(msg: seq<bool>, final: seq<nat>, track: seq<nat>, n: nat)
    requires n <= |final| == |track|
  {
    && |msg| == 64 * n
    && forall q :: 0 <= q < n ==>
         && msg[64 * q..64 * q + 32] == Bits.FromNat(32, final[q])
         && msg[64 * q + 32..64 * q + 64] == Bits.FromNat(32, track[q])
  }

  lemma MessageGrows(msg: seq<bool>, final: seq<nat>, track: seq<nat>, n: nat)
    requires n < |final| == |track| && Message(msg, final, track, n)
    ensures Message(msg + Bits.FromNat(32, final[n]) + Bits.FromNat(32, track[n]), final, track, n + 1)
  {
    hide Bits.FromNat;
    var m := msg + Bits.FromNat(32, final[n]) + Bits.FromNat(32, track[n]);
    forall q | 0 <= q < n ensures m[64 * q..64 * q + 32] == msg[64 * q..64 * q + 32] {
    }
    forall q | 0 <= q < n ensures m[64 * q + 32..64 * q + 64] == msg[64 * q + 32..64 * q + 64] {
    }
  }

  /** Scan, corrupt, scan again, undo, and check sum. */
  method CoreBenchState(blksize: nat, buf: array<Byte>, seed1: Byte, seed2: Byte, step: nat, crc0: Bits.Word,
          ghost z1: nat, ghost z2: nat)
    returns (crc: Bits.Word, ghost first: seq<Piece>, ghost second: seq<Piece>, ghost final: seq<nat>,
          ghost track: seq<nat>, ghost msg: seq<bool>)
    requires blksize <= buf.Length && step > 0 && |crc0| == 16
    requires FirstNul(buf[..], z1) && FirstNul(Corrupted(buf[..], blksize, step, seed1), z2)
    modifies buf
    ensures buf[..] == Corrupted(Corrupted(old(buf[..]), blksize, step, seed1), blksize, step, seed2)
    ensures Partition(old(buf[..]), first, z1) && Partition(Corrupted(old(buf[..]), blksize, step, seed1), second, z2)
    ensures |final| == |track| == STATES && Message(msg, final, track, STATES) && crc == Crc.Feed(crc0, msg)
    ensures forall q: State :: final[Index(q)] == Finals(first, q) + Finals(second, q)
    ensures forall q: State :: track[Index(q)] ==
              Tallies(old(buf[..]), first, z1, q)
              + Tallies(Corrupted(old(buf[..]), blksize, step, seed1), second, z2, q)
  {
    hide Partition, Finals, Tallies, Corrupted, Index, Crc.Feed, Message, HasBit;
    var finalCounts := new nat[STATES](_ => 0);
    var trackCounts := new nat[STATES](_ => 0);
    first := Scan(buf, finalCounts, trackCounts, z1);
    ghost var b := buf[..];
    assert b == old(buf[..]);
    Corrupt(buf, blksize, step, seed1);
    second := Scan(buf, finalCounts, trackCounts, z2);
    assert buf[..] == Corrupted(b, blksize, step, seed1);
    Corrupt(buf, blksize, step, seed2);
    final, track := finalCounts[..], trackCounts[..];
    crc, msg := CheckSum(crc0, finalCounts, trackCounts);
  }

  method CheckSum(crc0: Bits.Word, final: array<nat>, track: array<nat>)
    returns (crc: Bits.Word, ghost msg: seq<bool>)
    requires |crc0| == 16 && final.Length == track.Length == STATES
    ensures Message(msg, final[..], track[..], STATES) && crc == Crc.Feed(crc0, msg)
  {
    hide Crc.Feed, Bits.FromNat, Message;
    crc, msg := crc0, [];
    NoMessage(crc0, final[..], track[..]);
    for i := 0 to STATES
      invariant |crc| == 16 && crc == Crc.Feed(crc0, msg) && Message(msg, final[..], track[..], i)
    {
      ghost var a, b := Bits.FromNat(32, final[i]), Bits.FromNat(32, track[i]);
      MessageGrows(msg, final[..], track[..], i);
      Crc.FeedAppend(crc0, msg, a);
      Crc.FeedAppend(crc0, msg + a, b);
      crc := Crc.Crcu32(Bits.FromNat(32, final[i]), crc);
      crc := Crc.Crcu32(Bits.FromNat(32, track[i]), crc);
      msg := msg + a + b;
    }
  }

  lemma NoMessage(crc: Bits.Word, final: seq<nat>, track: seq<nat>)
    requires |crc| == 16 && |final| == |track|
    ensures Message([], final, track, 0) && Crc.Feed(crc, []) == crc
  {
  }
}
