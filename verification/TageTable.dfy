/** The tables of a TAGE predictor as values, and what an update does to them. */
module TageTable {
  import opened Bits
  import opened Sequences

  const ALLOCFAILMAX := 511
  const MAXALLOC := 3

  /** tag, prediction counter and useful counter. */
  datatype GEntry = GEntry(tag: int, ctr: int, u: int)

  type Table = seq<seq<GEntry>>

  // ----- Saturating counters

  function CtrMax(nbits: nat): int
    requires nbits >= 1
  {
    Pow2(nbits - 1) - 1
  }

  function CtrMin(nbits: nat): int
    requires nbits >= 1
  {
    0 - Pow2(nbits - 1)
  }

  predicate CtrOk(c: int, nbits: nat)
    requires nbits >= 1
  {
    CtrMin(nbits) <= c <= CtrMax(nbits)
  }

  /** One step towards the direction, kept in the signed range of nbits bits. */
  function Counted(c: int, inc: bool, nbits: nat): int
    requires nbits >= 1
  {
    if inc then (if c < CtrMax(nbits) then c + 1 else c)
    else (if c > CtrMin(nbits) then c - 1 else c)
  }

  predicate Saturated(c: int, nbits: nat)
    requires nbits >= 1
  {
    c == CtrMax(nbits) || c == CtrMin(nbits)
  }

  predicate StaysSaturated(c: int, inc: bool, nbits: nat)
    requires nbits >= 1
  {
    Saturated(c, nbits) && Saturated(Counted(c, inc, nbits), nbits)
  }

  /** A saturated counter stays saturated exactly when it is pushed further the same way; in one
      bit the two ends are neighbours, and it always does. */
  lemma StaysSaturatedExactly(c: int, inc: bool, nbits: nat)
    requires nbits >= 1 && CtrOk(c, nbits)
    ensures CtrOk(Counted(c, inc, nbits), nbits)
    ensures StaysSaturated(c, inc, nbits) <==> nbits == 1 || c == if inc then CtrMax(nbits) else CtrMin(nbits)
  {
    if nbits > 1 { assert Pow2(nbits - 1) == 2 * Pow2(nbits - 2); }
  }

  // ----- Entries and tables

  predicate EntryOk(e: GEntry, tagbits: nat, ctrbits: nat)
    requires ctrbits >= 1
  {
    0 <= e.tag < Pow2(tagbits) && CtrOk(e.ctr, ctrbits) && 0 <= e.u <= 3
  }

  ghost predicate TableOk(t: Table, tagbits: nat, ctrbits: nat)
    requires ctrbits >= 1
  {
    forall i, j :: 0 <= i < |t| && 0 <= j < |t[i]| ==> EntryOk(t[i][j], tagbits, ctrbits)
  }

  /** gi selects one entry of each bank. */
  ghost predicate Indexed(t: Table, gi: seq<nat>) {
    |gi| == |t| && forall i :: 0 <= i < |t| ==> gi[i] < |t[i]|
  }

  ghost function Get(t: Table, gi: seq<nat>, i: nat): GEntry
    requires Indexed(t, gi) && i < |t|
  {
    t[i][gi[i]]
  }

  ghost function Put(t: Table, gi: seq<nat>, i: nat, e: GEntry): Table
    requires Indexed(t, gi) && i < |t|
  {
    t[i := t[i][gi[i] := e]]
  }

  /** One global clear: every useful counter that is not zero goes down by one. */
  ghost function Cleared(t: Table): Table {
    seq(|t|, i requires 0 <= i < |t| =>
      seq(|t[i]|, j requires 0 <= j < |t[i]| => if t[i][j].u != 0 then t[i][j].(u := t[i][j].u - 1) else t[i][j]))
  }

  lemma TableSame(a: Table, b: Table)
    requires |a| == |b| && forall i :: 0 <= i < |a| ==> |a[i]| == |b[i]|
    requires forall i, j :: 0 <= i < |a| && 0 <= j < |a[i]| ==> a[i][j] == b[i][j]
    ensures a == b
  {
    forall i | 0 <= i < |a| ensures a[i] == b[i] {
    }
  }

  // ----- Hits

  /** The banks from k on whose selected entry carries the branch's tag. */
  ghost function Hits(t: Table, gi: seq<nat>, tags: seq<int>, k: nat): seq<nat>
    requires Indexed(t, gi) && |tags| == |t| && k <= |t|
    decreases |t| - k
  {
    if k == |t| then []
    else if Get(t, gi, k).tag == tags[k] then [k] + Hits(t, gi, tags, k + 1)
    else Hits(t, gi, tags, k + 1)
  }

  lemma HitsFrom(t: Table, gi: seq<nat>, tags: seq<int>, k: nat)
    requires Indexed(t, gi) && |tags| == |t| && k < |t|
    ensures Hits(t, gi, tags, k)
            == if Get(t, gi, k).tag == tags[k] then [k] + Hits(t, gi, tags, k + 1) else Hits(t, gi, tags, k + 1)
  {
  }

  lemma HitsEnd(t: Table, gi: seq<nat>, tags: seq<int>)
    requires Indexed(t, gi) && |tags| == |t|
    ensures Hits(t, gi, tags, |t|) == []
  {
  }

  ghost predicate Ascending(h: seq<nat>) {
    forall i, j :: 0 <= i < j < |h| ==> h[i] < h[j]
  }

  ghost predicate Descending(h: seq<nat>) {
    forall i, j :: 0 <= i < j < |h| ==> h[i] > h[j]
  }

  lemma {:induction false} HitsAreMatches(t: Table, gi: seq<nat>, tags: seq<int>, k: nat)
    requires Indexed(t, gi) && |tags| == |t| && k <= |t|
    ensures Ascending(Hits(t, gi, tags, k))
    ensures forall i :: i in Hits(t, gi, tags, k) <==> (k <= i < |t| && Get(t, gi, i).tag == tags[i])
    decreases |t| - k
  {
    if k < |t| {
      HitsAreMatches(t, gi, tags, k + 1);
      var rest := Hits(t, gi, tags, k + 1);
      forall j | 0 <= j < |rest| ensures k < rest[j] {
        assert rest[j] in rest;
      }
      assert forall i :: i in [k] + rest <==> i == k || i in rest;
    }
  }

  /** An ascending list is determined by its members. */
  lemma {:induction false} AscendingUnique(a: seq<nat>, b: seq<nat>)
    requires Ascending(a) && Ascending(b) && forall i :: i in a <==> i in b
    ensures a == b
  {
    assert |b| > 0 ==> b[0] in b;
    if a != [] {
      assert a[0] in b && b != [];
      assert b[0] in a;
      var i :| 0 <= i < |b| && b[i] == a[0];
      var j :| 0 <= j < |a| && a[j] == b[0];
      assert a[0] == b[0];
      forall x ensures x in a[1..] <==> x in b[1..] {
        TailMembers(a, x);
        TailMembers(b, x);
      }
      AscendingUnique(a[1..], b[1..]);
    }
  }

  lemma TailMembers(a: seq<nat>, x: nat)
    requires Ascending(a) && |a| > 0
    ensures x in a[1..] <==> x in a && x != a[0]
  {
  }

  // ----- What one update leaves behind

  /** A newly allocated entry. */
  function Fresh(tag: int, taken: bool): GEntry {
    GEntry(tag, if taken then 0 else -1, 0)
  }

  function Lowered(u: int, clears: nat): int {
    if u <= clears then 0 else u - clears
  }

  function SettledEntry(e: GEntry, isNew: bool, isTrained: bool, tag: int, taken: bool, clears: nat,
          ctrbits: nat): GEntry
    requires ctrbits >= 1
  {
    if isNew then Fresh(tag, taken)
    else GEntry(e.tag, if isTrained then Counted(e.ctr, taken, ctrbits) else e.ctr, Lowered(e.u, clears))
  }

  /** The table in which the selected entries of the banks alloc are replaced, those of the banks
      trained have counted the outcome, and every useful counter has been cleared so many times. */
  ghost function Settled(t: Table, gi: seq<nat>, tags: seq<int>, taken: bool, trained: set<nat>, alloc: seq<nat>,
          clears: nat, ctrbits: nat): (t': Table)
    requires Indexed(t, gi) && |tags| == |t| && ctrbits >= 1
    ensures |t'| == |t| && Indexed(t', gi)
  {
    seq(|t|, i requires 0 <= i < |t| =>
      seq(|t[i]|, j requires 0 <= j < |t[i]| =>
        SettledEntry(t[i][j], j == gi[i] && i in alloc, j == gi[i] && i in trained, tags[i], taken, clears, ctrbits)))
  }

  lemma SettledNothing(t: Table, gi: seq<nat>, tags: seq<int>, taken: bool, tagbits: nat, ctrbits: nat)
    requires Indexed(t, gi) && |tags| == |t| && ctrbits >= 1 && TableOk(t, tagbits, ctrbits)
    ensures Settled(t, gi, tags, taken, {}, [], 0, ctrbits) == t
  {
    var t' := Settled(t, gi, tags, taken, {}, [], 0, ctrbits);
    forall i | 0 <= i < |t| ensures t'[i] == t[i] {
      forall j | 0 <= j < |t[i]| ensures t'[i][j] == t[i][j] {
        assert EntryOk(t[i][j], tagbits, ctrbits);
      }
    }
  }

  lemma SettledTrain(t: Table, gi: seq<nat>, tags: seq<int>, taken: bool, trained: set<nat>, ctrbits: nat, k: nat)
    requires Indexed(t, gi) && |tags| == |t| && ctrbits >= 1 && k < |t| && k !in trained
    ensures var t' := Settled(t, gi, tags, taken, trained, [], 0, ctrbits);
            && Indexed(t', gi)
            && Get(t', gi, k).ctr == Get(t, gi, k).ctr && Get(t', gi, k).u == Lowered(Get(t, gi, k).u, 0)
            && Settled(t, gi, tags, taken, trained + {k}, [], 0, ctrbits)
               == Put(t', gi, k, Get(t', gi, k).(ctr := Counted(Get(t', gi, k).ctr, taken, ctrbits)))
  {
    hide Counted;
    var t' := Settled(t, gi, tags, taken, trained, [], 0, ctrbits);
    TableSame(Settled(t, gi, tags, taken, trained + {k}, [], 0, ctrbits),
              Put(t', gi, k, Get(t', gi, k).(ctr := Counted(Get(t', gi, k).ctr, taken, ctrbits))));
  }

  lemma SettledAlloc(t: Table, gi: seq<nat>, tags: seq<int>, taken: bool, trained: set<nat>, alloc: seq<nat>,
          clears: nat, ctrbits: nat, k: nat)
    requires Indexed(t, gi) && |tags| == |t| && ctrbits >= 1 && k < |t| && k !in alloc
    ensures var t' := Settled(t, gi, tags, taken, trained, alloc, clears, ctrbits);
            && Indexed(t', gi) && Get(t', gi, k).u == Lowered(Get(t, gi, k).u, clears)
            && Settled(t, gi, tags, taken, trained, alloc + [k], clears, ctrbits) == Put(t', gi, k,
                   Fresh(tags[k], taken))
  {
    hide Counted, Fresh;
    var t' := Settled(t, gi, tags, taken, trained, alloc, clears, ctrbits);
    TableSame(Settled(t, gi, tags, taken, trained, alloc + [k], clears, ctrbits),
        Put(t', gi, k, Fresh(tags[k], taken)));
  }

  lemma SettledClear(t: Table, gi: seq<nat>, tags: seq<int>, taken: bool, trained: set<nat>, alloc: seq<nat>,
          clears: nat, ctrbits: nat)
    requires Indexed(t, gi) && |tags| == |t| && ctrbits >= 1
    ensures Settled(t, gi, tags, taken, trained, alloc, clears + 1, ctrbits)
            == Cleared(Settled(t, gi, tags, taken, trained, alloc, clears, ctrbits))
  {
    hide Counted;
    TableSame(Settled(t, gi, tags, taken, trained, alloc, clears + 1, ctrbits),
              Cleared(Settled(t, gi, tags, taken, trained, alloc, clears, ctrbits)));
  }

  /** An update keeps every entry in range. */
  lemma SettledOk(t: Table, gi: seq<nat>, tags: seq<int>, taken: bool, trained: set<nat>, alloc: seq<nat>, clears: nat,
          tagbits: nat, ctrbits: nat)
    requires Indexed(t, gi) && |tags| == |t| && ctrbits >= 1 && TableOk(t, tagbits, ctrbits)
    requires forall i :: 0 <= i < |t| ==> 0 <= tags[i] < Pow2(tagbits)
    ensures TableOk(Settled(t, gi, tags, taken, trained, alloc, clears, ctrbits), tagbits, ctrbits)
  {
    hide Pow2;
    var t' := Settled(t, gi, tags, taken, trained, alloc, clears, ctrbits);
    forall i, j | 0 <= i < |t'| && 0 <= j < |t'[i]| ensures EntryOk(t'[i][j], tagbits, ctrbits) {
      assert EntryOk(t[i][j], tagbits, ctrbits);
    }
  }

  ghost predicate Below(alloc: seq<nat>, hits: seq<nat>, n: nat) {
    forall a :: a in alloc ==> a < Provider(hits, n)
  }

  /** Looking the same branch up again finds the allocated banks, and after them the old hits. */
  lemma AllocateThenLookup(t: Table, gi: seq<nat>, tags: seq<int>, taken: bool, trained: set<nat>, alloc: seq<nat>,
          clears: nat, ctrbits: nat)
    requires Indexed(t, gi) && |tags| == |t| && ctrbits >= 1
    requires Descending(alloc) && Below(alloc, Hits(t, gi, tags, 0), |t|)
    ensures var t' := Settled(t, gi, tags, taken, trained, alloc, clears, ctrbits);
            && Indexed(t', gi)
            && Hits(t', gi, tags, 0) == Reversed(alloc) + Hits(t, gi, tags, 0)
            && forall a :: a in alloc ==> a < |t| && (Get(t', gi, a).ctr >= 0 <==> taken)
  {
    hide Counted;
    var t', old_ := Settled(t, gi, tags, taken, trained, alloc, clears, ctrbits), Hits(t, gi, tags, 0);
    var h := Reversed(alloc) + old_;
    HitsAreMatches(t, gi, tags, 0);
    HitsAreMatches(t', gi, tags, 0);
    AllocBeforeHits(alloc, old_, |t|);
    forall i ensures i in h <==> i in Hits(t', gi, tags, 0) {
      ReversedMembers(alloc, i);
      AllocatedInRange(alloc, old_, |t|, i);
    }
    forall a | a in alloc ensures a < |t| { AllocatedInRange(alloc, old_, |t|, a); }
    AscendingUnique(h, Hits(t', gi, tags, 0));
  }

  lemma AllocatedInRange(alloc: seq<nat>, hits: seq<nat>, n: nat, i: nat)
    requires Below(alloc, hits, n) && forall k :: k in hits ==> k < n
    ensures i in alloc ==> i < n
  {
    if hits != [] { assert hits[0] in hits; }
  }

  lemma ReversedMembers(s: seq<nat>, x: nat)
    ensures x in Reversed(s) <==> x in s
  {
    if x in s {
      var i :| 0 <= i < |s| && s[i] == x;
      assert Reversed(s)[|s| - 1 - i] == x;
    }
  }

  lemma AllocBeforeHits(alloc: seq<nat>, hits: seq<nat>, n: nat)
    requires Descending(alloc) && Ascending(hits) && Below(alloc, hits, n)
    ensures Ascending(Reversed(alloc) + hits)
  {
    var h, m := Reversed(alloc) + hits, |alloc|;
    forall i, j | 0 <= i < j < |h| ensures h[i] < h[j] {
      if i < m <= j {
        assert h[i] == alloc[m - 1 - i] && alloc[m - 1 - i] in alloc;
        assert hits[0] <= hits[j - m];
      }
    }
  }

  /** Hits depend on the tags alone. */
  lemma {:induction false} SameTagsSameHits(t: Table, t': Table, gi: seq<nat>, tags: seq<int>, k: nat)
    requires Indexed(t, gi) && Indexed(t', gi) && |tags| == |t| && k <= |t|
    requires forall i :: 0 <= i < |t| ==> Get(t, gi, i).tag == Get(t', gi, i).tag
    ensures Hits(t, gi, tags, k) == Hits(t', gi, tags, k)
    decreases |t| - k
  {
    if k < |t| { SameTagsSameHits(t, t', gi, tags, k + 1); }
  }

  /** Allocation then lookup, for the table as a whole update leaves it. */
  lemma LookupAfterUpdate(t: Table, gi: seq<nat>, tags: seq<int>, taken: bool, trained: set<nat>, alloc: seq<nat>,
          clears: nat, alone: bool, tagbits: nat, ctrbits: nat)
    requires Indexed(t, gi) && |tags| == |t| && ctrbits >= 1 && TableOk(t, tagbits, ctrbits)
    requires forall i :: 0 <= i < |t| ==> 0 <= tags[i] < Pow2(tagbits)
    requires Descending(alloc) && Below(alloc, Hits(t, gi, tags, 0), |t|) && HitList(t, Hits(t, gi, tags, 0))
    ensures var hits := Hits(t, gi, tags, 0);
            var t' := Promoted(Settled(t, gi, tags, taken, trained, alloc, clears, ctrbits), gi, hits, alone);
            && Indexed(t', gi)
            && Hits(t', gi, tags, 0) == Reversed(alloc) + hits
            && (alloc != [] ==> Reversed(alloc)[0] < |t| && (Says(t', gi, Reversed(alloc)[0]) <==> taken))
  {
    hide Settled, Promoted, Hits, Below, Ascending, TableOk, Descending, Reversed, Pow2;
    var t1, hits := Settled(t, gi, tags, taken, trained, alloc, clears, ctrbits), Hits(t, gi, tags, 0);
    SettledOk(t, gi, tags, taken, trained, alloc, clears, tagbits, ctrbits);
    AllocateThenLookup(t, gi, tags, taken, trained, alloc, clears, ctrbits);
    PromotedKeeps(t1, gi, hits, alone, tagbits, ctrbits);
    SameTagsSameHits(t1, Promoted(t1, gi, hits, alone), gi, tags, 0);
    if alloc != [] {
      ReversedMembers(alloc, Reversed(alloc)[0]);
    }
  }

  // ----- Which counters an update trains

  ghost predicate HitList(t: Table, hits: seq<nat>) {
    Ascending(hits) && forall k :: 0 <= k < |hits| ==> hits[k] < |t|
  }

  ghost function Range(s: seq<nat>, n: nat): set<nat>
    requires n <= |s|
  {
    set k | 0 <= k < n :: s[k]
  }

  /** The provider, and when it is not useful also the next longest hit. */
  ghost function CarefulDepth(t: Table, gi: seq<nat>, hits: seq<nat>): (n: nat)
    requires Indexed(t, gi) && HitList(t, hits)
    ensures n <= |hits|
  {
    if |hits| <= 1 || Get(t, gi, hits[0]).u != 0 then (if hits == [] then 0 else 1) else 2
  }

  /** The bimodal table is trained when it is the provider or stands in for the second hit. */
  ghost predicate CarefulBimodal(t: Table, gi: seq<nat>, hits: seq<nat>)
    requires Indexed(t, gi) && HitList(t, hits)
  {
    hits == [] || (|hits| == 1 && Get(t, gi, hits[0]).u == 0)
  }

  ghost predicate Says(t: Table, gi: seq<nat>, i: nat)
    requires Indexed(t, gi) && i < |t|
  {
    Get(t, gi, i).ctr >= 0
  }

  /** The hits from k on up to the first that disagrees with the provider. */
  ghost function AgreeDepth(t: Table, gi: seq<nat>, hits: seq<nat>, k: nat): (n: nat)
    requires Indexed(t, gi) && HitList(t, hits) && 1 <= k <= |hits|
    ensures k <= n <= |hits|
    ensures forall i :: k <= i < n ==> Says(t, gi, hits[i]) == Says(t, gi, hits[0])
    ensures n < |hits| ==> Says(t, gi, hits[n]) != Says(t, gi, hits[0])
    decreases |hits| - k
  {
    if k == |hits| || Says(t, gi, hits[k]) != Says(t, gi, hits[0]) then k else AgreeDepth(t, gi, hits, k + 1)
  }

  /** During ramp up all hits that agree with the provider without a gap are trained, and the second
      even when it disagrees, provided that the first is not useful. */
  ghost function AggressiveDepth(t: Table, gi: seq<nat>, hits: seq<nat>): (n: nat)
    requires Indexed(t, gi) && HitList(t, hits)
    ensures n <= |hits|
  {
    if hits == [] then 0
    else
      var n := AgreeDepth(t, gi, hits, 1);
      if n == 1 < |hits| && Get(t, gi, hits[0]).u == 0 then 2 else n
  }

  /** The bimodal counter joins in when it provides, when it stands in for the second hit, or when
      it agrees and either every hit does or the second was the first not to and was trained. */
  ghost predicate AggressiveBimodal(t: Table, gi: seq<nat>, hits: seq<nat>, bimodal: int)
    requires Indexed(t, gi) && HitList(t, hits)
  {
    || hits == []
    || (|hits| == 1 && Get(t, gi, hits[0]).u == 0)
    || ((bimodal >= 0) == Says(t, gi, hits[0])
        && (AgreeDepth(t, gi, hits, 1) == |hits| || (AgreeDepth(t, gi, hits, 1) == 1 && Get(t, gi, hits[0]).u == 0)))
  }

  /** What hit number k predicts, the bimodal counter standing in for a missing one. */
  ghost predicate Direction(t: Table, gi: seq<nat>, hits: seq<nat>, k: nat, bimodal: int)
    requires Indexed(t, gi) && HitList(t, hits)
  {
    if k < |hits| then Says(t, gi, hits[k]) else bimodal >= 0
  }

  /** Were the counters of hits a to n - 1 saturated, and have they stayed so? */
  ghost predicate StaySaturated(t: Table, gi: seq<nat>, hits: seq<nat>, a: nat, n: nat, taken: bool, ctrbits: nat)
    requires Indexed(t, gi) && HitList(t, hits) && n <= |hits| && ctrbits >= 1
  {
    forall k :: a <= k < n ==> StaysSaturated(Get(t, gi, hits[k]).ctr, taken, ctrbits)
  }

  /** Every trained counter stayed saturated; the bimodal table counts only beside a hit. */
  ghost predicate AllSaturated(t: Table, gi: seq<nat>, hits: seq<nat>, n: nat, bimodal: int, withBimodal: bool,
          taken: bool, ctrbits: nat)
    requires Indexed(t, gi) && HitList(t, hits) && n <= |hits| && ctrbits >= 1
  {
    && StaySaturated(t, gi, hits, 0, n, taken, ctrbits)
    && (hits != [] && withBimodal ==> StaysSaturated(bimodal, taken, ctrbits))
  }

  /** The ramp up policy holds back when every counter it trained, the bimodal one counting only beside a
      hit, was already as far as it goes in the direction of the outcome. */
  lemma AllSaturatedExactly(t: Table, gi: seq<nat>, hits: seq<nat>, n: nat, bimodal: int, withBimodal: bool,
          taken: bool, ctrbits: nat, tagbits: nat)
    requires Indexed(t, gi) && HitList(t, hits) && n <= |hits| && ctrbits >= 2
    requires TableOk(t, tagbits, ctrbits) && CtrOk(bimodal, ctrbits)
    ensures var end := if taken then Pow2(ctrbits - 1) - 1 else 0 - Pow2(ctrbits - 1);
            AllSaturated(t, gi, hits, n, bimodal, withBimodal, taken, ctrbits)
            <==> && (forall k :: 0 <= k < n ==> Get(t, gi, hits[k]).ctr == end)
                 && (hits != [] && withBimodal ==> bimodal == end)
  {
    hide Pow2, StaysSaturated, Ascending;
    StaysSaturatedExactly(bimodal, taken, ctrbits);
    forall k | 0 <= k < n
      ensures StaysSaturated(Get(t, gi, hits[k]).ctr, taken, ctrbits)
              <==> Get(t, gi, hits[k]).ctr == if taken then Pow2(ctrbits - 1) - 1 else 0 - Pow2(ctrbits - 1)
    {
      assert EntryOk(Get(t, gi, hits[k]), tagbits, ctrbits);
      StaysSaturatedExactly(Get(t, gi, hits[k]).ctr, taken, ctrbits);
    }
  }

  lemma StaySaturatedOnto(t: Table, gi: seq<nat>, hits: seq<nat>, n: nat, m: nat, taken: bool, ctrbits: nat)
    requires Indexed(t, gi) && HitList(t, hits) && n <= m <= |hits| && ctrbits >= 1
    ensures StaySaturated(t, gi, hits, 0, m, taken, ctrbits)
            <==> StaySaturated(t, gi, hits, 0, n, taken, ctrbits) && StaySaturated(t, gi, hits, n, m, taken, ctrbits)
    ensures m == n + 1 ==>
              (StaySaturated(t, gi, hits, n, m, taken, ctrbits)
               <==> StaysSaturated(Get(t, gi, hits[n]).ctr, taken, ctrbits))
    ensures StaySaturated(t, gi, hits, 0, 0, taken, ctrbits)
  {
    hide StaysSaturated, Ascending;
  }

  lemma AgreeNext(t: Table, gi: seq<nat>, hits: seq<nat>, k: nat)
    requires Indexed(t, gi) && HitList(t, hits) && 1 <= k <= |hits|
    ensures AgreeDepth(t, gi, hits, k)
            == if k < |hits| && Says(t, gi, hits[k]) == Says(t, gi, hits[0]) then AgreeDepth(t, gi, hits, k + 1) else k
  {
  }

  /** The bank of the longest hit, or one past the last bank. */
  ghost function Provider(hits: seq<nat>, n: nat): nat {
    if hits == [] then n else hits[0]
  }

  ghost function Usefuls(t: Table, gi: seq<nat>): (us: seq<int>)
    requires Indexed(t, gi)
    ensures |us| == |t|
  {
    seq(|t|, i requires 0 <= i < |t| => Get(t, gi, i).u)
  }

  /** Exactly the banks below the provider that are not useful and whose history is allowed. */
  ghost predicate AllFree(alloc: seq<nat>, us: seq<int>, provider: nat, allowed: seq<bool>)
    requires provider <= |us| == |allowed|
  {
    Descending(alloc) && forall i :: i in alloc <==> 0 <= i < provider && us[i] == 0 && allowed[i]
  }

  /** The provider becomes more useful when it alone was right. */
  ghost function Promoted(t: Table, gi: seq<nat>, hits: seq<nat>, alone: bool): Table
    requires Indexed(t, gi) && HitList(t, hits)
  {
    if alone && hits != [] then
      var e := Get(t, gi, hits[0]);
      Put(t, gi, hits[0], e.(u := Counted(e.u, true, 3)))
    else t
  }

  lemma PromotedKeeps(t: Table, gi: seq<nat>, hits: seq<nat>, alone: bool, tagbits: nat, ctrbits: nat)
    requires Indexed(t, gi) && HitList(t, hits) && ctrbits >= 1 && TableOk(t, tagbits, ctrbits)
    ensures var t' := Promoted(t, gi, hits, alone);
            && Indexed(t', gi) && |t'| == |t| && TableOk(t', tagbits, ctrbits)
            && forall i ::
                 0 <= i < |t| ==> Get(t', gi, i).tag == Get(t, gi, i).tag && Get(t', gi, i).ctr == Get(t, gi, i).ctr
  {
    var t' := Promoted(t, gi, hits, alone);
    assert Pow2(2) == 2 * Pow2(1) && Pow2(1) == 2 * Pow2(0);
    if alone && hits != [] { assert EntryOk(Get(t, gi, hits[0]), tagbits, ctrbits); }
    forall i, j | 0 <= i < |t'| && 0 <= j < |t'[i]| ensures EntryOk(t'[i][j], tagbits, ctrbits) {
      assert EntryOk(t[i][j], tagbits, ctrbits);
    }
  }

  /** What an update leaves of any entry: a new one is weak, not useful and carries the branch's tag; a
      trained one has counted the outcome; only the provider is rewarded, by one and up to three. */
  lemma UpdateOfEntry(t: Table, gi: seq<nat>, tags: seq<int>, taken: bool, hits: seq<nat>, n: nat, alloc: seq<nat>,
          clears: nat, alone: bool, ctrbits: nat, i: nat, j: nat)
    requires Indexed(t, gi) && |tags| == |t| && HitList(t, hits) && n <= |hits| && ctrbits >= 1
    requires Below(alloc, hits, |t|) && i < |t| && j < |t[i]| && t[i][j].u <= 3
    ensures var t1 := Settled(t, gi, tags, taken, Range(hits, n), alloc, clears, ctrbits);
            && HitList(t1, hits)
            && var e, e' := t[i][j], Promoted(t1, gi, hits, alone)[i][j];
               var isNew, isTrained := j == gi[i] && i in alloc, j == gi[i] && i in hits[..n];
               var lowered := if e.u > clears then e.u - clears else 0;
               && e'.tag == (if isNew then tags[i] else e.tag)
               && e'.ctr == (if isNew then (if taken then 0 else -1)
                             else if isTrained && taken && e.ctr < Pow2(ctrbits - 1) - 1 then e.ctr + 1
                             else if isTrained && !taken && e.ctr > 0 - Pow2(ctrbits - 1) then e.ctr - 1
                             else e.ctr)
               && e'.u == (if isNew then 0
                           else if alone && hits != [] && i == hits[0] && j == gi[i] && lowered < 3 then lowered + 1
                           else lowered)
  {
    hide Pow2, Ascending;
    InRangeExactly(hits, n, i);
    MaxOfThree();
    assert hits != [] ==> hits[0] !in alloc;
  }

  lemma InRangeExactly(s: seq<nat>, n: nat, x: nat)
    requires n <= |s|
    ensures x in Range(s, n) <==> x in s[..n]
  {
    if x in s[..n] {
      var k :| 0 <= k < n && s[..n][k] == x;
      assert s[k] in Range(s, n);
    }
    if x in Range(s, n) {
      var k :| 0 <= k < n && s[k] == x;
      assert s[..n][k] == x;
    }
  }

  lemma MaxOfThree()
    ensures CtrMax(3) == 3
  {
    assert Pow2(2) == 2 * Pow2(1) && Pow2(1) == 2 * Pow2(0);
  }

  /** The careful policy trains the provider, and the next hit beside a provider that is not useful. */
  lemma CarefulDepthExactly(t: Table, gi: seq<nat>, hits: seq<nat>, k: nat)
    requires Indexed(t, gi) && HitList(t, hits) && k < |hits|
    ensures k < CarefulDepth(t, gi, hits) <==> k == 0 || (k == 1 && Get(t, gi, hits[0]).u == 0)
  {
  }

  /** The ramp up policy trains hit k when all hits up to it agree with the provider, or when it is the
      second and the provider is not useful. */
  lemma AggressiveDepthExactly(t: Table, gi: seq<nat>, hits: seq<nat>, k: nat)
    requires Indexed(t, gi) && HitList(t, hits) && k < |hits|
    ensures k < AggressiveDepth(t, gi, hits)
            <==> || (forall j :: 0 <= j <= k ==> (Says(t, gi, hits[j]) <==> Says(t, gi, hits[0])))
                 || (k == 1 && Get(t, gi, hits[0]).u == 0)
  {
    hide Says, Ascending;
    var n := AgreeDepth(t, gi, hits, 1);
    assert forall j :: 1 <= j < n ==> (Says(t, gi, hits[j]) <==> Says(t, gi, hits[0]));
  }

  /** The bimodal counter joins in alone, in place of the second hit, or when it agrees with the
      provider and no hit disagrees but perhaps the second, if that was trained. */
  lemma AggressiveBimodalExactly(t: Table, gi: seq<nat>, hits: seq<nat>, bimodal: int)
    requires Indexed(t, gi) && HitList(t, hits)
    ensures AggressiveBimodal(t, gi, hits, bimodal)
            <==> || hits == [] || (|hits| == 1 && Get(t, gi, hits[0]).u == 0)
                 || ((bimodal >= 0 <==> Get(t, gi, hits[0]).ctr >= 0)
                     && ((forall j :: 0 <= j < |hits| ==> (Says(t, gi, hits[j]) <==> Says(t, gi, hits[0])))
                         || (|hits| > 1 && Says(t, gi, hits[1]) != Says(t, gi, hits[0]) && Get(t, gi, hits[0]).u == 0)))
  {
    hide Ascending;
    if hits != [] {
      var n := AgreeDepth(t, gi, hits, 1);
      assert forall j :: 1 <= j < n ==> (Says(t, gi, hits[j]) <==> Says(t, gi, hits[0]));
    }
  }

  lemma StolenBelow(us: seq<int>, i: nat, fail: int, hits: seq<nat>, n: nat)
    requires i <= |us| && 0 <= fail <= ALLOCFAILMAX && i == Provider(hits, n)
    ensures var r := Steal(us, i, 0, fail, 0);
            Below(r.alloc, hits, n) && Descending(r.alloc) && 0 <= r.fail <= ALLOCFAILMAX
  {
    hide PassedOver;
    StealWorks(us, i, 0, fail, 0);
  }

  // ----- Stealing entries

  /** The banks stolen from, the failure counter, and how often all useful counters were cleared. */
  datatype Stolen = Stolen(alloc: seq<nat>, fail: int, clears: nat)

  /** The walk from bank i - 1 down to bank 0, us being the useful counters before the walk. */
  ghost function Steal(us: seq<int>, i: int, nalloc: nat, fail: int, clears: nat): Stolen
    requires i <= |us|
    decreases i
  {
    if i <= 0 then Stolen([], fail, clears)
    else if Lowered(us[i - 1], clears) == 0 then
      var fail' := if fail > 0 then fail - 1 else fail;
      if nalloc + 1 == MAXALLOC then Stolen([i - 1], fail', clears)
      else var r := Steal(us, i - 2, nalloc + 1, fail', clears); r.(alloc := [i - 1] + r.alloc)
    else
      var fail' := if fail < ALLOCFAILMAX then fail + 1 else fail;
      Steal(us, i - 1, nalloc, fail', if fail' == ALLOCFAILMAX then clears + 1 else clears)
  }

  /** Never two adjacent banks, from the shorter history down to the longer. */
  ghost predicate Spaced(alloc: seq<nat>) {
    forall p, q :: 0 <= p < q < |alloc| ==> alloc[p] >= alloc[q] + 2
  }

  /** Bank k was passed over for a reason: it was in use when the walk began, it lies just below a
      stolen one, or the walk had stopped. */
  ghost predicate PassedOver(us: seq<int>, k: nat, alloc: seq<nat>, room: nat)
    requires k < |us|
  {
    us[k] > 0 || k + 1 in alloc || (|alloc| == room && |alloc| > 0 && k < alloc[|alloc| - 1])
  }

  /** What a walk down from bank i - 1 with room for so many more achieves. */
  ghost predicate StealOk(us: seq<int>, i: int, room: nat, clears: nat, r: Stolen)
    requires i <= |us|
  {
    && 0 <= r.fail <= ALLOCFAILMAX && r.clears >= clears
    && |r.alloc| <= room && Spaced(r.alloc)
    && (forall a :: a in r.alloc ==> a < i && Lowered(us[a], r.clears) == 0)
    && (forall k :: 0 <= k < i && k !in r.alloc ==> PassedOver(us, k, r.alloc, room))
  }

  lemma {:induction false} StealWorks(us: seq<int>, i: int, nalloc: nat, fail: int, clears: nat)
    requires i <= |us| && nalloc < MAXALLOC && 0 <= fail <= ALLOCFAILMAX
    ensures StealOk(us, i, MAXALLOC - nalloc, clears, Steal(us, i, nalloc, fail, clears))
    decreases i
  {
    hide StealOk;
    if i <= 0 {
      StealNothing(us, i, MAXALLOC - nalloc, fail, clears);
    } else if Lowered(us[i - 1], clears) == 0 {
      var fail' := if fail > 0 then fail - 1 else fail;
      if nalloc + 1 == MAXALLOC {
        StealNothing(us, 0, 0, fail', clears);
        StealLast(us, i - 1, fail', clears);
      } else {
        StealWorks(us, i - 2, nalloc + 1, fail', clears);
        StealOnto(us, i - 1, Steal(us, i - 2, nalloc + 1, fail', clears), MAXALLOC - nalloc, clears);
      }
    } else {
      var fail' := if fail < ALLOCFAILMAX then fail + 1 else fail;
      var clears' := if fail' == ALLOCFAILMAX then clears + 1 else clears;
      StealWorks(us, i - 1, nalloc, fail', clears');
      StealPast(us, i - 1, Steal(us, i - 1, nalloc, fail', clears'), MAXALLOC - nalloc, clears, clears');
    }
  }

  lemma StealNothing(us: seq<int>, i: int, room: nat, fail: int, clears: nat)
    requires i <= 0 <= fail <= ALLOCFAILMAX
    ensures StealOk(us, i, room, clears, Stolen([], fail, clears))
  {
  }

  lemma StealLast(us: seq<int>, k: nat, fail: int, clears: nat)
    requires k < |us| && Lowered(us[k], clears) == 0 && 0 <= fail <= ALLOCFAILMAX
    ensures StealOk(us, k + 1, 1, clears, Stolen([k], fail, clears))
  {
    assert [k][0] in [k];
  }

  lemma StealPast(us: seq<int>, k: nat, r: Stolen, room: nat, clears: nat, clears': nat)
    requires k < |us| && Lowered(us[k], clears) != 0 && clears' >= clears && StealOk(us, k, room, clears', r)
    ensures StealOk(us, k + 1, room, clears, r)
  {
    assert PassedOver(us, k, r.alloc, room);
  }

  lemma StealOnto(us: seq<int>, k: nat, r: Stolen, room: nat, clears: nat)
    requires k < |us| && room >= 1 && Lowered(us[k], clears) == 0 && StealOk(us, k - 1, room - 1, clears, r)
    ensures StealOk(us, k + 1, room, clears, r.(alloc := [k] + r.alloc))
  {
    hide PassedOver;
    var all := [k] + r.alloc;
    forall p, q | 0 <= p < q < |all| ensures all[p] >= all[q] + 2 {
      assert all[q] == r.alloc[q - 1] && all[q] in r.alloc;
    }
    forall j | 0 <= j < k + 1 && j !in all ensures PassedOver(us, j, all, room) {
      assert j != k by { assert all[0] == k; }
      PassedOverStill(us, k, j, r.alloc, room);
    }
  }

  lemma PassedOverStill(us: seq<int>, k: nat, j: nat, alloc: seq<nat>, room: nat)
    requires j < k < |us| && room >= 1 && |alloc| <= room - 1
    requires j < k - 1 ==> PassedOver(us, j, alloc, room - 1)
    ensures PassedOver(us, j, [k] + alloc, room)
  {
    var all := [k] + alloc;
    if j == k - 1 {
      assert all[0] == j + 1;
    } else if j + 1 in alloc {
      assert j + 1 in all;
    }
  }

  /** What the walk has done when it comes to bank k: the walk over the banks above k alone. */
  ghost function StealAbove(us: seq<int>, i: nat, nalloc: nat, fail: int, clears: nat, k: nat): Stolen
    requires k < i <= |us|
  {
    Steal(us[k + 1..], i - k - 1, nalloc, fail, clears)
  }

  /** Exactly the banks are stolen that the walk reaches, not just below a stolen one and with room
      left, and whose useful counter is zero at that very moment. */
  lemma {:induction false} StealExactly(us: seq<int>, i: nat, nalloc: nat, fail: int, clears: nat, k: nat)
    requires k < i <= |us| && nalloc < MAXALLOC
    ensures var above := StealAbove(us, i, nalloc, fail, clears, k);
            k in Steal(us, i, nalloc, fail, clears).alloc <==>
              && |above.alloc| + nalloc < MAXALLOC && 0 !in above.alloc
              && Lowered(us[k], above.clears) == 0
    decreases i
  {
    hide Lowered;
    var above := us[k + 1..];
    if i - 1 == k {
      StealBelow(us, k - 1, nalloc + 1, if fail > 0 then fail - 1 else fail, clears);
      StealBelow(us, k, nalloc, if fail < ALLOCFAILMAX then fail + 1 else fail,
                 if (if fail < ALLOCFAILMAX then fail + 1 else fail) == ALLOCFAILMAX then clears + 1 else clears);
      assert Steal(above, 0, nalloc, fail, clears) == Stolen([], fail, clears);
    } else {
      assert above[i - k - 2] == us[i - 1];
      if Lowered(us[i - 1], clears) == 0 {
        StealExactlyAfter(us, i, nalloc, fail, clears, k);
      } else {
        var fail' := if fail < ALLOCFAILMAX then fail + 1 else fail;
        var clears' := if fail' == ALLOCFAILMAX then clears + 1 else clears;
        StealExactly(us, i - 1, nalloc, fail', clears', k);
      }
    }
  }

  lemma {:induction false} StealExactlyAfter(us: seq<int>, i: nat, nalloc: nat, fail: int, clears: nat, k: nat)
    requires k < i - 1 && i <= |us| && nalloc < MAXALLOC && Lowered(us[i - 1], clears) == 0
    ensures var above := StealAbove(us, i, nalloc, fail, clears, k);
            k in Steal(us, i, nalloc, fail, clears).alloc <==>
              && |above.alloc| + nalloc < MAXALLOC && 0 !in above.alloc
              && Lowered(us[k], above.clears) == 0
    decreases i, 0
  {
    hide Lowered;
    var above, fail' := us[k + 1..], if fail > 0 then fail - 1 else fail;
    assert above[i - k - 2] == us[i - 1];
    if nalloc + 1 == MAXALLOC {
      assert |StealAbove(us, i, nalloc, fail, clears, k).alloc| == 1;
    } else if k == i - 2 {
      StealBelow(us, i - 2, nalloc + 1, fail', clears);
      assert StealAbove(us, i, nalloc, fail, clears, k).alloc[0] == 0;
    } else {
      var r := Steal(above, i - k - 3, nalloc + 1, fail', clears);
      assert StealAbove(us, i, nalloc, fail, clears, k) == r.(alloc := [i - k - 2] + r.alloc);
      assert StealAbove(us, i - 2, nalloc + 1, fail', clears, k) == r;
      StealExactly(us, i - 2, nalloc + 1, fail', clears, k);
    }
  }

  lemma {:induction false} StealBelow(us: seq<int>, i: int, nalloc: nat, fail: int, clears: nat)
    requires i <= |us|
    ensures forall a :: a in Steal(us, i, nalloc, fail, clears).alloc ==> a < i
    decreases i
  {
    if i > 0 {
      hide Lowered;
      var fail' := if fail < ALLOCFAILMAX then fail + 1 else fail;
      StealBelow(us, i - 2, nalloc + 1, if fail > 0 then fail - 1 else fail, clears);
      StealBelow(us, i - 1, nalloc, fail', if fail' == ALLOCFAILMAX then clears + 1 else clears);
    }
  }

  /** Away from both ends of the failure counter each theft takes one off it, and each bank that was
      looked at in vain adds one: not the bank below a stolen one, nor those behind the last theft. */
  lemma {:induction false} StealAccounts(us: seq<int>, i: int, nalloc: nat, fail: int, clears: nat)
    requires -1 <= i <= |us| && nalloc < MAXALLOC && fail >= MAXALLOC - nalloc && fail + i < ALLOCFAILMAX
    ensures var r := Steal(us, i, nalloc, fail, clears);
            var stolen, done := |r.alloc|, |r.alloc| + nalloc == MAXALLOC;
            var banks := (if i < 0 then 0 else i) - if done && stolen > 0 then r.alloc[stolen - 1] else 0;
            var below := if stolen == 0 then 0 else if r.alloc[stolen - 1] == 0 || done then stolen - 1 else stolen;
            && stolen + nalloc <= MAXALLOC && r.clears == clears
            && r.fail == fail + (banks - stolen - below) - stolen
    decreases if i < 0 then 0 else i
  {
    hide Lowered;
    if i > 0 {
      if Lowered(us[i - 1], clears) == 0 {
        if nalloc + 1 < MAXALLOC {
          StealAccounts(us, i - 2, nalloc + 1, fail - 1, clears);
        }
      } else {
        StealAccounts(us, i - 1, nalloc, fail + 1, clears);
      }
    }
  }

  /** When nothing can be stolen every bank counts as a failure, and from ALLOCFAILMAX failures on
      each of them clears the useful counters once more. */
  lemma {:induction false} FailedSteal(us: seq<int>, i: nat, nalloc: nat, fail: int, clears: nat)
    requires i <= |us| && nalloc < MAXALLOC && 0 <= fail <= ALLOCFAILMAX
    requires Steal(us, i, nalloc, fail, clears).alloc == []
    ensures var r := Steal(us, i, nalloc, fail, clears);
            var over := fail + i + 1 - ALLOCFAILMAX;
            && r.fail == (if fail + i < ALLOCFAILMAX then fail + i else ALLOCFAILMAX)
            && r.clears == clears + (if over <= 0 then 0 else if over < i then over else i)
    decreases i
  {
    if i > 0 {
      var fail' := if fail < ALLOCFAILMAX then fail + 1 else fail;
      FailedSteal(us, i - 1, nalloc, fail', if fail' == ALLOCFAILMAX then clears + 1 else clears);
    }
  }
}
