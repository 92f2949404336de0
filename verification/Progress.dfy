/** Every fair schedule of the client and the server lets the server finish. */
module Progress {
  import opened SharedMemory

  // ----- Steps taken

  function ClientOffset(pc: ClientPc): int {
    match pc
    case CInit => 4
    case CLock => 0
    case CReadStatus => 1
    case CUnlock => 2
    case CBranch => 3
    case CWrite => 4
    case CWait => 4
    case CLock2 => 0
    case CSwitch => 1
    case CFlip => -3
    case CPost => -2
    case CUnlock2 => -1
    case CExit => 0
  }

  function ServerOffset(pc: ServerPc): int {
    match pc
    case SCheck => 0
    case SLock => 1
    case SReadStatus => 2
    case SUnlock => 3
    case SBranch => 4
    case SWait => 5
    case SRead => 5
    case SLock2 => 6
    case SSwitch => 7
    case SFlip => -3
    case SPost => -2
    case SUnlock2 => -1
    case SDone => 1
    case SExit => 0
  }

  /** The steps that both processes have taken, blocked ones not counted, told from what they have
      achieved: five for every cell, fill and wait of the client, six for every wait and eleven for
      every drain of the server, one for every cell it processed. */
  function Ticks(s: State): int {
    5 * (|s.produced| + s.clientWaits + s.fills) + ClientOffset(s.cpc)
    + 6 * s.serverWaits + 11 * s.drains + |s.consumed| + ServerOffset(s.spc)
  }

  predicate Blocked(s: State, p: Process) {
    match p
    case Client => ClientBlocked(s)
    case Server => ServerBlocked(s)
  }

  lemma ClientTicks(c: Config, s: State)
    requires Sized(c, s) && !ClientNext(c, s).cpc.CExit?
    ensures ClientBlocked(s) ==> ClientNext(c, s) == s
    ensures !ClientBlocked(s) ==> Ticks(ClientNext(c, s)) == Ticks(s) + 1
    ensures ClientNext(c, s).spc == s.spc
  {
    match s.cpc { case CInit => case CLock => case CReadStatus => case CUnlock => case CBranch => case CWrite =>
      case CLock2 => case CSwitch => case CFlip => case CPost => case CUnlock2 => case CWait => case CExit => }
  }

  lemma ServerTicks(c: Config, s: State)
    requires Sized(c, s) && !ServerNext(c, s).spc.SExit?
    ensures ServerBlocked(s) ==> ServerNext(c, s) == s
    ensures !ServerBlocked(s) ==> Ticks(ServerNext(c, s)) == Ticks(s) + 1
    ensures s.spc.SDone? ==> ServerNext(c, s).spc.SDone?
  {
    match s.spc { case SCheck => case SLock => case SReadStatus => case SUnlock => case SBranch => case SWait =>
      case SRead => case SLock2 => case SSwitch => case SFlip => case SPost => case SUnlock2 => case SDone =>
      case SExit => }
  }

  /** A step either finds its process blocked and changes nothing, or it is counted. */
  lemma StepTicks(c: Config, s: State, p: Process)
    requires Invariant(c, s)
    ensures Blocked(s, p) ==> Step(c, s, p) == s
    ensures !Blocked(s, p) ==> Ticks(Step(c, s, p)) == Ticks(s) + 1
    ensures s.spc.SDone? ==> Step(c, s, p).spc.SDone?
  {
    hide Control, Data, Ticks, ClientNext, ServerNext, ClientBlocked, ServerBlocked;
    InvariantStays(c, s, p);
    NoExit(c, Step(c, s, p));
    match p
    case Client => ClientTicks(c, s);
    case Server => ServerTicks(c, s);
  }

  lemma NoExit(c: Config, s: State)
    requires Invariant(c, s)
    ensures !s.cpc.CExit? && !s.spc.SExit?
  {
  }

  // ----- The steps are bounded

  /** Until the last sector the server needs has been read, the sectors read hold fewer cells than
      it is to process. */
  ghost predicate DrainsBounded(c: Config, s: State)
    requires c.ndata > 0
  {
    && (s.drains > 0 ==> Start(c.ndata, s.drains) < c.desired + c.ndata)
    && (s.spc.SRead? || s.spc.SLock2? || s.spc.SSwitch? ==> Start(c.ndata, s.drains) < c.desired)
  }

  lemma DrainsStayBounded(c: Config, s: State, p: Process)
    requires Invariant(c, s) && c.ndata > 0 && DrainsBounded(c, s)
    ensures DrainsBounded(c, Step(c, s, p))
  {
    hide SectorsHold, Stream, Processed, Control, ClientNext;
    ServerAloneMoves(c, s);
  }

  lemma ServerAloneMoves(c: Config, s: State)
    requires Sized(c, s)
    ensures ClientNext(c, s).spc == s.spc && ClientNext(c, s).drains == s.drains
  {
  }

  function Budget(c: Config): nat {
    (if c.desired > 0 then c.desired else 0) + c.ndata
  }

  /** More steps than that are never taken before the server is done. */
  function Bound(c: Config): nat {
    33 * Budget(c) + 15 * c.ndata + 41
  }

  lemma {:induction false} StartAtLeast(n: nat, r: nat)
    requires n > 0
    ensures r <= Start(n, r)
  {
    if r > 0 { StartAtLeast(n, r - 1); }
  }

  lemma TicksBounded(c: Config, s: State)
    requires Invariant(c, s) && c.ndata > 0 && DrainsBounded(c, s)
    ensures Ticks(s) <= Bound(c)
  {
    hide Invariant, ClientOffset, ServerOffset, Start, DrainsBounded;
    Achieved(c, s);
    DrainsWithin(c, s);
    OffsetsWithin(s);
    StartGrows(c.ndata, s.fills, s.drains + 2);
    TwoMore(c.ndata, s.drains);
  }

  lemma OffsetsWithin(s: State)
    ensures ClientOffset(s.cpc) <= 4 && ServerOffset(s.spc) <= 7
  {
  }

  lemma DrainsWithin(c: Config, s: State)
    requires c.ndata > 0 && DrainsBounded(c, s)
    ensures s.drains <= Start(c.ndata, s.drains) <= Budget(c)
  {
    StartAtLeast(c.ndata, s.drains);
  }

  lemma TwoMore(n: nat, r: nat)
    ensures Start(n, r + 2) == Start(n, r) + 2 * n
  {
    assert Start(n, r + 2) == Start(n, r + 1) + n;
  }

  lemma Achieved(c: Config, s: State)
    requires Invariant(c, s)
    ensures s.fills <= s.drains + 2 && s.clientWaits <= s.drains + 1 && s.serverWaits <= s.fills
    ensures |s.produced| <= Start(c.ndata, s.fills) + c.ndata
    ensures |s.consumed| <= if c.desired > 0 then c.desired else 0
    ensures s.drains <= s.fills
  {
    hide SectorsHold;
  }

  // ----- Fair schedules

  lemma {:induction false} RunAppend(c: Config, s: State, a: seq<Process>, b: seq<Process>)
    requires Sized(c, s)
    ensures Run(c, s, a + b) == Run(c, Run(c, s, a), b)
  {
    if b == [] {
      assert a + b == a;
    } else {
      RunAppend(c, s, a, b[..|b| - 1]);
      assert (a + b)[..|a + b| - 1] == a + b[..|b| - 1];
    }
  }

  ghost predicate Good(c: Config, s: State) {
    Invariant(c, s) && c.ndata > 0 && DrainsBounded(c, s)
  }

  lemma GoodStays(c: Config, s: State, p: Process)
    requires Good(c, s)
    ensures Sized(c, s) && Good(c, Step(c, s, p))
  {
    hide Control, Data, DrainsBounded, Step;
    InvariantStays(c, s, p);
    DrainsStayBounded(c, s, p);
  }

  /** Along a schedule steps are only added, and if none is, nothing has happened. */
  lemma {:induction false} RunTicks(c: Config, s: State, schedule: seq<Process>)
    requires Good(c, s)
    ensures Sized(c, s) && Good(c, Run(c, s, schedule))
    ensures Ticks(Run(c, s, schedule)) >= Ticks(s)
    ensures Ticks(Run(c, s, schedule)) == Ticks(s) ==> Run(c, s, schedule) == s
    ensures s.spc.SDone? ==> Run(c, s, schedule).spc.SDone?
  {
    hide Control, Data, DrainsBounded, Step, Ticks, Blocked;
    if schedule != [] {
      var before, p := schedule[..|schedule| - 1], schedule[|schedule| - 1];
      RunTicks(c, s, before);
      StepTicks(c, Run(c, s, before), p);
      GoodStays(c, Run(c, s, before), p);
    }
  }

  /** A round in which both processes get a turn makes progress unless the server is done. */
  lemma RoundTicks(c: Config, s: State, round: seq<Process>)
    requires Good(c, s) && Client in round && Server in round
    ensures Sized(c, s)
    ensures s.spc.SDone? || Ticks(Run(c, s, round)) > Ticks(s)
  {
    hide Control, Data, DrainsBounded, Step, Ticks, Blocked, Invariant;
    GoodSized(c, s);
    if !s.spc.SDone? {
      var p := Awake(c, s);
      var j :| 0 <= j < |round| && round[j] == p;
      var a := round[..j];
      RunTicks(c, s, a);
      RunTicks(c, s, round[..j + 1]);
      assert round[..j + 1][..j] == a;
      StepTicks(c, Run(c, s, a), p);
      RunTicks(c, Run(c, s, round[..j + 1]), round[j + 1..]);
      RunAppend(c, s, round[..j + 1], round[j + 1..]);
      assert round[..j + 1] + round[j + 1..] == round;
    }
  }

  lemma GoodSized(c: Config, s: State)
    requires Good(c, s)
    ensures Sized(c, s)
  {
  }

  /** One of the processes can take a step. */
  lemma Awake(c: Config, s: State) returns (p: Process)
    requires Good(c, s) && !s.spc.SDone?
    ensures !Blocked(s, p)
  {
    ControlIsWakeful(c, s);
    p := if ClientBlocked(s) then Server else Client;
  }

  function Flat(rounds: seq<seq<Process>>): seq<Process> {
    if rounds == [] then [] else Flat(rounds[..|rounds| - 1]) + rounds[|rounds| - 1]
  }

  ghost predicate Fair(rounds: seq<seq<Process>>) {
    forall k :: 0 <= k < |rounds| ==> Client in rounds[k] && Server in rounds[k]
  }

  lemma {:induction false} RoundsTicks(c: Config, s: State, rounds: seq<seq<Process>>)
    requires Good(c, s) && Fair(rounds)
    ensures Sized(c, s)
    ensures Run(c, s, Flat(rounds)).spc.SDone? || Ticks(Run(c, s, Flat(rounds))) >= Ticks(s) + |rounds|
  {
    hide Control, Data, DrainsBounded, Step, Ticks, Good;
    GoodSized(c, s);
    if rounds != [] {
      var before, round := rounds[..|rounds| - 1], rounds[|rounds| - 1];
      RoundsTicks(c, s, before);
      RunTicks(c, s, Flat(before));
      var s' := Run(c, s, Flat(before));
      RunAppend(c, s, Flat(before), round);
      RunTicks(c, s', round);
      RoundTicks(c, s', round);
    }
  }

  lemma GoodStarts(c: Config, s: State)
    requires Initial(c, s)
    ensures Good(c, s) && Ticks(s) == 4
  {
    InvariantStarts(c, s);
  }

  /** Whatever the order of the steps: after so many rounds in which both processes get a turn the
      server has left its loop, with exactly the cells it was to process. */
  lemma ServerFinishes(c: Config, s: State, rounds: seq<seq<Process>>)
    requires Initial(c, s) && Fair(rounds) && |rounds| >= Bound(c)
    ensures var s' := Run(c, s, Flat(rounds));
            && s'.spc.SDone?
            && |s'.consumed| == (if c.desired > 0 then c.desired else 0) && InOrder(c.ndata, s'.consumed)
  {
    hide Invariant, DrainsBounded, Ticks, Good, Initial;
    GoodStarts(c, s);
    GoodSized(c, s);
    RoundsTicks(c, s, rounds);
    RunTicks(c, s, Flat(rounds));
    GoodBounded(c, Run(c, s, Flat(rounds)));
    Fifo(c, s, Flat(rounds));
  }

  lemma GoodBounded(c: Config, s: State)
    requires Good(c, s)
    ensures Ticks(s) <= Bound(c)
  {
    TicksBounded(c, s);
  }
}
