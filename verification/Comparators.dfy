/** The comparators of the CoreMark list sort: what they return and what they do to the cells. */
module Comparators {
  import opened Bits
  import opened Cells
  import opened CoreList
  import Crc

  // ----- calc_func

  /** The switch of calc_func: run the kernel that the word asks for, and keep its first checksum. */
  method RunKernel(data: W16, res: Results) returns (retval: W16)
    modifies res`crcstate, res`crcmatrix
    ensures retval == Raw(res.kernels, data, res.crc)
    ensures Sums(Crc.Feed(res.crc, retval), res.crcstate, res.crcmatrix) == Absorb(old(res.Current()), data, retval)
  {
    hide Val, FromNat, Crc.Feed;
    var flag := Val(And(data, Mask(16, 3)));
    var dtype: W16 := And(Shr(data, 3), Mask(16, 4));
    dtype := Or(dtype, Shl(dtype, 4));
    if flag == 0 {
      if Val(dtype) < 0x22 {
        dtype := FromNat(16, 0x22);
      }
      retval := res.kernels.state(dtype, res.crc);
      if res.crcstate == Zero(16) {
        res.crcstate := retval;
      }
    } else if flag == 1 {
      retval := res.kernels.matrix(dtype, res.crc);
      if res.crcmatrix == Zero(16) {
        res.crcmatrix := retval;
      }
    } else {
      retval := data;
    }
  }

  method CalcFunc(pdata: Info, res: Results) returns (v: W16)
    modifies pdata`data16, res
    ensures v == Key(pdata.data16) && Cached(pdata.data16)
    ensures old(Cached(pdata.data16)) ==> pdata.data16 == old(pdata.data16) && res.Current() == old(res.Current())
    ensures old(!Cached(pdata.data16)) ==>
              var raw := Raw(res.kernels, old(pdata.data16), old(res.crc));
              && pdata.data16 == Cache(old(pdata.data16), raw)
              && res.Current() == Absorb(old(res.Current()), old(pdata.data16), raw)
    ensures !old(pdata.data16)[7] ==>
              var d, low, nibble := old(pdata.data16), Val(old(pdata.data16)[..3]), Val(old(pdata.data16)[3..7]);
              var raw := if low == 0 then
                           res.kernels.state(FromNat(16, if nibble < 2 then 0x22 else 0x11 * nibble), old(res.crc))
                         else if low == 1 then res.kernels.matrix(FromNat(16, 0x11 * nibble), old(res.crc))
                         else d;
              && pdata.data16 == raw[..7] + [true] + d[8..] && v == raw[..7] + Zero(9)
              && res.crc == Crc.Feed(old(res.crc), raw)
              && res.crcstate == (if low == 0 && old(res.crcstate) == Zero(16) then raw else old(res.crcstate))
              && res.crcmatrix == (if low == 1 && old(res.crcmatrix) == Zero(16) then raw else old(res.crcmatrix))
  {
    hide Raw, Absorb, Crc.Feed, Cache, Val, FromNat, And, Or, Not, Mask, OneBit;
    var data := pdata.data16;
    MaskedWidths(data);
    if data[7] {
      return And(data, Mask(16, 7));
    }
    RawByType(res.kernels, data, res.crc);
    ghost var s0 := res.Current();
    var retval := RunKernel(data, res);
    res.crc := Crc.Crcu16(retval, res.crc);
    ghost var raw := retval;
    AbsorbByType(s0, data, raw);
    MaskedWidths(raw);
    retval := And(retval, Mask(16, 7));
    CacheBits(data, raw);
    pdata.data16 := Or(Or(And(data, Not(Mask(16, 8))), OneBit(16, 7)), retval);
    v := retval;
  }

  lemma CacheBits(data: W16, raw: W16)
    ensures var v := And(raw, Mask(16, 7));
            && |And(data, Not(Mask(16, 8)))| == |OneBit(16, 7)| == 16
            && |Or(And(data, Not(Mask(16, 8))), OneBit(16, 7))| == 16
            && Or(Or(And(data, Not(Mask(16, 8))), OneBit(16, 7)), v) == Cache(data, raw) && v == Key(Cache(data, raw))
            && Cache(data, raw) == raw[..7] + [true] + data[8..] && v == raw[..7] + Zero(9)
  {
  }

  lemma MaskedWidths(d: W16)
    ensures |Mask(16, 7)| == |Mask(16, 8)| == |Not(Mask(16, 8))| == 16 && |And(d, Mask(16, 7))| == 16
    ensures And(d, Mask(16, 7)) == Key(d)
  {
  }

  // ----- The history of the evaluations

  /** One cell evaluation: the cell, the word it held, and the value calc_func computed for it. */
  datatype Step = Step(cell: nat, word: W16, raw: W16)

  ghost function SumsAfter(s0: Sums, trace: seq<Step>): Sums {
    if trace == [] then s0
    else
      var last := trace[|trace| - 1];
      Absorb(SumsAfter(s0, trace[..|trace| - 1]), last.word, last.raw)
  }

  /** Every value in the trace is what calc_func computes from the checksum of the moment. */
  ghost predicate Computed(k: Kernels, s0: Sums, trace: seq<Step>) {
    trace == [] ||
    var init, last := trace[..|trace| - 1], trace[|trace| - 1];
    Computed(k, s0, init) && last.raw == Raw(k, last.word, SumsAfter(s0, init).crc)
  }

  ghost predicate Evaluated(trace: seq<Step>, i: nat) {
    exists j :: 0 <= j < |trace| && trace[j].cell == i
  }

  /** From cell words d0 to words d exactly the cells of the trace were evaluated, each once and
      each from an uncached word, and no other cell word changed. */
  ghost predicate Accounted(d0: seq<W16>, trace: seq<Step>, d: seq<W16>) {
    && |d| == |d0|
    && (forall j :: 0 <= j < |trace| ==>
          && trace[j].cell < |d0| && d0[trace[j].cell] == trace[j].word && !Cached(trace[j].word)
          && d[trace[j].cell] == Cache(trace[j].word, trace[j].raw))
    && (forall j, k :: 0 <= j < k < |trace| ==> trace[j].cell != trace[k].cell)
    && (forall i :: 0 <= i < |d0| ==> d[i] == d0[i] || Evaluated(trace, i))
  }

  ghost predicate CalcHistory(k: Kernels, s0: Sums, d0: seq<W16>, trace: seq<Step>, s: Sums, d: seq<W16>) {
    Computed(k, s0, trace) && s == SumsAfter(s0, trace) && Accounted(d0, trace, d)
  }

  lemma ComputedStep(k: Kernels, s0: Sums, trace: seq<Step>, step: Step)
    requires Computed(k, s0, trace) && step.raw == Raw(k, step.word, SumsAfter(s0, trace).crc)
    ensures Computed(k, s0, trace + [step])
    ensures SumsAfter(s0, trace + [step]) == Absorb(SumsAfter(s0, trace), step.word, step.raw)
  {
    assert (trace + [step])[..|trace|] == trace;
  }

  lemma AccountedStep(d0: seq<W16>, trace: seq<Step>, d: seq<W16>, step: Step)
    requires Accounted(d0, trace, d)
    requires step.cell < |d0| && step.word == d[step.cell] && !Cached(step.word)
    ensures Accounted(d0, trace + [step], d[step.cell := Cache(step.word, step.raw)])
  {
    var i := step.cell;
    var trace' := trace + [step];
    var d' := d[i := Cache(step.word, step.raw)];
    assert !Evaluated(trace, i);
    forall x | 0 <= x < |d0| ensures d'[x] == d0[x] || Evaluated(trace', x) {
      if x == i {
        assert trace'[|trace|].cell == x;
      } else if d[x] != d0[x] {
        var j :| 0 <= j < |trace| && trace[j].cell == x;
        assert trace'[j].cell == x;
      }
    }
  }

  lemma CalcHistoryStep(k: Kernels, s0: Sums, d0: seq<W16>, trace: seq<Step>, s: Sums, d: seq<W16>, i: nat)
    requires CalcHistory(k, s0, d0, trace, s, d)
    requires i < |d0| && !Cached(d[i])
    ensures var raw := Raw(k, d[i], s.crc);
            CalcHistory(k, s0, d0, trace + [Step(i, d[i], raw)], Absorb(s, d[i], raw), d[i := Cache(d[i], raw)])
  {
    var step := Step(i, d[i], Raw(k, d[i], s.crc));
    ComputedStep(k, s0, trace, step);
    AccountedStep(d0, trace, d, step);
  }

  // ----- Comparators

  /** The comparison functions a sort can be called with.  CmpIdx(true) is cmp_idx called with a
      null result pointer; CmpPure stands for any comparator that only reads the two cells. */
  datatype Cmp =
    | CmpComplex(res: Results)
    | CmpIdx(regen: bool)
    | CmpPure(f: (W16, int, W16, int) -> int)

  /** What a comparator looks at in one cell. */
  datatype View = View(data: W16, idx: int)

  /** The view of a cell; None while cmp_complex has not yet computed the cell's key. */
  ghost function ViewOf(c: Cmp, data: W16, idx: int): Option<View> {
    match c
    case CmpComplex(_) => if Cached(data) then Some(View(Key(data), 0)) else None
    case CmpIdx(_) => Some(View(Zero(16), idx))
    case CmpPure(_) => Some(View(data, idx))
  }

  ghost function Order(c: Cmp, v: View, w: View): int {
    match c
    case CmpComplex(_) => Val(v.data) - Val(w.data)
    case CmpIdx(_) => v.idx - w.idx
    case CmpPure(f) => f(v.data, v.idx, w.data, w.idx)
  }

  ghost predicate Le(c: Cmp, v: View, w: View) {
    Order(c, v, w) <= 0
  }

  ghost predicate TotalPreorder(c: Cmp) {
    && (forall v, w :: Le(c, v, w) || Le(c, w, v))
    && (forall u, v, w :: Le(c, u, v) && Le(c, v, w) ==> Le(c, u, w))
  }

  lemma SourceComparatorsArePreorders(c: Cmp)
    requires !c.CmpPure?
    ensures TotalPreorder(c)
  {
  }

  /** The state of a sort as far as comparisons change it: the cell words and sums now, the cells
      compared so far, and the evaluations so far. */
  datatype Log = Log(data: seq<W16>, sums: Sums, touched: set<nat>, trace: seq<Step>)

  /** calc_func on cell i. */
  ghost function Evaluate(k: Kernels, log: Log, i: nat): Log
    requires i < |log.data|
  {
    var w := log.data[i];
    if Cached(w) then log.(touched := log.touched + {i})
    else
      var raw := Raw(k, w, log.sums.crc);
      Log(log.data[i := Cache(w, raw)], Absorb(log.sums, w, raw), log.touched + {i}, log.trace + [Step(i, w, raw)])
  }

  /** A comparison of cells i and j. */
  ghost function Comparison(c: Cmp, log: Log, i: nat, j: nat): Log
    requires i < |log.data| && j < |log.data|
  {
    match c
    case CmpComplex(res) => Evaluate(res.kernels, Evaluate(res.kernels, log, i), j)
    case CmpIdx(regen) =>
      if regen then Log(log.data[i := Regen(log.data[i])][j := Regen(log.data[j])], log.sums, log.touched + {i, j},
          log.trace)
      else log.(touched := log.touched + {i, j})
    case CmpPure(_) => log.(touched := log.touched + {i, j})
  }

  /** What the comparisons of log have done to the words d0 and the sums s0. */
  ghost predicate Effect(c: Cmp, s0: Sums, d0: seq<W16>, log: Log) {
    && |log.data| == |d0|
    && match c
       case CmpComplex(res) => CalcHistory(res.kernels, s0, d0, log.trace, log.sums, log.data)
       case CmpIdx(regen) =>
         && log.trace == []
         && forall i :: 0 <= i < |d0| ==> log.data[i] == if regen && i in log.touched then Regen(d0[i]) else d0[i]
       case CmpPure(_) => log.trace == [] && log.data == d0
  }

  lemma EffectStays(c: Cmp, s0: Sums, d0: seq<W16>, log: Log, i: nat, j: nat)
    requires Effect(c, s0, d0, log) && i < |d0| && j < |d0|
    ensures Effect(c, s0, d0, Comparison(c, log, i, j))
  {
    match c
    case CmpComplex(res) =>
      EvaluateStays(res.kernels, s0, d0, log, i);
      EvaluateStays(res.kernels, s0, d0, Evaluate(res.kernels, log, i), j);
    case CmpIdx(_) =>
      RegenTwice(d0[i]);
      RegenTwice(d0[j]);
    case CmpPure(_) =>
  }

  lemma EvaluateStays(k: Kernels, s0: Sums, d0: seq<W16>, log: Log, i: nat)
    requires |log.data| == |d0| && CalcHistory(k, s0, d0, log.trace, log.sums, log.data) && i < |d0|
    ensures var log' := Evaluate(k, log, i);
            |log'.data| == |d0| && CalcHistory(k, s0, d0, log'.trace, log'.sums, log'.data)
  {
    if !Cached(log.data[i]) {
      CalcHistoryStep(k, s0, d0, log.trace, log.sums, log.data, i);
    }
  }

  lemma RegenTwice(d: W16)
    ensures Regen(Regen(d)) == Regen(d)
  {
  }

  /** Once a cell has a view, it keeps it. */
  ghost predicate KeepsViews(c: Cmp, d: seq<W16>, d': seq<W16>) {
    && |d'| == |d|
    && forall i, x :: 0 <= i < |d| && ViewOf(c, d[i], x).Some? ==> ViewOf(c, d'[i], x) == ViewOf(c, d[i], x)
  }

  lemma ComparisonViews(c: Cmp, log: Log, i: nat, j: nat)
    requires i < |log.data| && j < |log.data|
    ensures var log' := Comparison(c, log, i, j);
            && log'.touched == log.touched + {i, j} && KeepsViews(c, log.data, log'.data)
            && forall x :: ViewOf(c, log'.data[i], x).Some? && ViewOf(c, log'.data[j], x).Some?
  {
    match c
    case CmpComplex(res) =>
      var log1 := Evaluate(res.kernels, log, i);
      EvaluateViews(res.kernels, log, i);
      EvaluateViews(res.kernels, log1, j);
      hide Evaluate, Cached, Key;
      forall k, x | 0 <= k < |log.data| && ViewOf(c, log.data[k], x).Some?
        ensures ViewOf(c, Comparison(c, log, i, j).data[k], x) == ViewOf(c, log.data[k], x)
      {
        assert Cached(log.data[k]) && log1.data[k] == log.data[k];
      }
    case CmpIdx(_) =>
    case CmpPure(_) =>
  }

  lemma EvaluateViews(k: Kernels, log: Log, i: nat)
    requires i < |log.data|
    ensures var log' := Evaluate(k, log, i);
            && log'.touched == log.touched + {i} && |log'.data| == |log.data| && Cached(log'.data[i])
            && forall j :: 0 <= j < |log.data| && Cached(log.data[j]) ==> log'.data[j] == log.data[j]
  {
    hide Raw, Absorb;
  }

  ghost function Footprint(c: Cmp): set<object> {
    if c.CmpComplex? then {c.res} else {}
  }

  /** The heap holds the memory m and the result fields hold the sums s. */
  ghost predicate Holding(c: Cmp, pool: Pool, m: Memory, s: Sums)
    reads Footprint(c), pool.nodes, pool.infos
  {
    Stored(pool, m) && (c.CmpComplex? ==> c.res.Current() == s)
  }

  method CalcCell(pdata: Info, res: Results, ghost pool: Pool, ghost m: Memory, ghost log: Log, ghost i: nat)
    returns (v: W16, ghost log': Log)
    requires Holding(CmpComplex(res), pool, m, log.sums) && log.data == m.data
    requires i < |m.data| && pdata == pool.infos[i]
    modifies (set x | x in pool.infos)`data16, res
    ensures log' == Evaluate(res.kernels, log, i)
    ensures Holding(CmpComplex(res), pool, m.(data := log'.data), log'.sums)
    ensures Cached(log'.data[i]) && v == Key(log'.data[i])
  {
    hide Raw, Absorb, Cache, Key;
    v := CalcFunc(pdata, res);
    log' := Evaluate(res.kernels, log, i);
    assert Stored(pool, m.(data := m.data[i := pdata.data16]));
    assert log'.data == m.data[i := pdata.data16];
  }

  method CompareComplex(a: Info, b: Info, res: Results, ghost pool: Pool, ghost m: Memory, ghost log: Log, ghost i: nat,
          ghost j: nat)
    returns (r: int, ghost log': Log)
    requires Holding(CmpComplex(res), pool, m, log.sums) && log.data == m.data
    requires i < |m.data| && a == pool.infos[i] && j < |m.data| && b == pool.infos[j]
    modifies (set x | x in pool.infos)`data16, res
    ensures log' == Comparison(CmpComplex(res), log, i, j)
    ensures Holding(CmpComplex(res), pool, m.(data := log'.data), log'.sums)
    ensures r == Val(Key(log'.data[i])) - Val(Key(log'.data[j]))
  {
    var val1, val2;
    val1, log' := CalcCell(a, res, pool, m, log, i);
    val2, log' := CalcCell(b, res, pool, m.(data := log'.data), log', j);
    r := Val(val1) - Val(val2);
  }

  lemma RegenBits(d: W16)
    ensures Or(And(d, Not(Mask(16, 8))), And(Mask(16, 8), Shr(d, 8))) == Regen(d)
  {
  }

  method CompareIdx(a: Info, b: Info, regen: bool, ghost pool: Pool, ghost m: Memory, ghost i: nat, ghost j: nat)
    returns (r: int)
    requires Stored(pool, m)
    requires i < |m.data| && a == pool.infos[i] && j < |m.data| && b == pool.infos[j]
    modifies (set x | x in pool.infos)`data16
    ensures r == m.idx[i] - m.idx[j]
    ensures Stored(pool, if regen then m.(data := m.data[i := Regen(m.data[i])][j := Regen(m.data[j])]) else m)
  {
    if regen {
      RegenBits(a.data16);
      a.data16 := Or(And(a.data16, Not(Mask(16, 8))), And(Mask(16, 8), Shr(a.data16, 8)));
      RegenBits(b.data16);
      b.data16 := Or(And(b.data16, Not(Mask(16, 8))), And(Mask(16, 8), Shr(b.data16, 8)));
      RegenTwice(m.data[i]);
    }
    r := a.idx - b.idx;
  }

  /** A call through the comparator pointer. */
  method Compare(c: Cmp, a: Info, b: Info, ghost pool: Pool, ghost m: Memory, ghost log: Log, ghost i: nat,
          ghost j: nat)
    returns (r: int, ghost log': Log)
    requires Holding(c, pool, m, log.sums) && log.data == m.data
    requires i < |m.data| && a == pool.infos[i] && j < |m.data| && b == pool.infos[j]
    modifies (set x | x in pool.infos)`data16, Footprint(c)
    ensures log' == Comparison(c, log, i, j)
    ensures Holding(c, pool, m.(data := log'.data), log'.sums)
    ensures var v, w := ViewOf(c, log'.data[i], m.idx[i]), ViewOf(c, log'.data[j], m.idx[j]);
            v.Some? && w.Some? && r == Order(c, v.value, w.value)
  {
    log' := Comparison(c, log, i, j);
    match c
    case CmpComplex(res) =>
      r, log' := CompareComplex(a, b, res, pool, m, log, i, j);
    case CmpIdx(regen) =>
      r := CompareIdx(a, b, regen, pool, m, i, j);
    case CmpPure(f) =>
      r := f(a.data16, a.idx, b.data16, b.idx);
  }
}
