/** The client/server exchange over two shared sectors, as interleaved atomic steps. */
module SharedMemory {
  import opened Modular

  const WORD := 0x1_0000_0000_0000_0000

  datatype Cell = Cell(pc: nat, tAddr: nat, tnt: nat)

  /** ndata is NDATA; desired is the server's instruction budget. */
  datatype Config = Config(ndata: nat, desired: int)

  datatype ClientPc =
    | CInit          // sem_wait(serverRead_sem), once, before the memory is mapped
    | CLock          // sem_wait(statusMutex_sem)
    | CReadStatus | CUnlock
    | CBranch        // full?  if not, choose the sector
    | CWrite         // produce one cell
    | CLock2 | CSwitch | CFlip | CPost | CUnlock2
    | CWait          // sem_wait(serverRead_sem)
    | CExit          // "status out of range"

  datatype ServerPc =
    | SCheck         // iCount < desiredIstr?
    | SLock | SReadStatus | SUnlock
    | SBranch        // empty?  if not, choose the sector
    | SWait          // sem_wait(clientWrote_sem)
    | SRead          // process one cell
    | SLock2 | SSwitch | SFlip | SPost | SUnlock2
    | SDone
    | SExit          // "status out of range"

  datatype State = State(
    // the shared memory
    s0: seq<Cell>, s1: seq<Cell>, status: int, nextToRead: int, nextToWrite: int,
    // the semaphores
    mutex: nat, clientWrote: nat, serverRead: nat,
    // the client
    cpc: ClientPc, cnt: nat, tmp: nat, cstatus: int, csector: int,
    // the server
    spc: ServerPc, i: nat, iCount: nat, sstatus: int, ssector: int,
    // what has happened: cells produced and processed, sectors filled and read, waits passed
    produced: seq<Cell>, consumed: seq<Cell>, fills: nat, drains: nat, clientWaits: nat, serverWaits: nat)

  predicate Sized(c: Config, s: State) {
    |s.s0| == |s.s1| == c.ndata && s.cnt < c.ndata
  }

  function Sector(s: State, k: int): seq<Cell> {
    if k == 0 then s.s0 else s.s1
  }

  function Xor1(x: int): int {
    if x % 2 == 0 then x + 1 else x - 1
  }

  predicate Initial(c: Config, s: State) {
    && Sized(c, s)
    && s.status == 0 && s.nextToRead == 0 && s.nextToWrite == 0
    && s.mutex == 1 && s.clientWrote == 0 && s.serverRead == 1
    && s.cpc.CInit? && s.cnt == 0 && s.tmp == 0
    && s.spc.SCheck? && s.iCount == 0
    && s.produced == [] && s.consumed == [] && s.fills == 0 && s.drains == 0
    && s.clientWaits == 0 && s.serverWaits == 0
  }

  predicate ClientBlocked(s: State) {
    match s.cpc
    case CInit => s.serverRead == 0
    case CWait => s.serverRead == 0
    case CLock => s.mutex == 0
    case CLock2 => s.mutex == 0
    case CExit => true
    case _ => false
  }

  predicate ServerBlocked(s: State) {
    match s.spc
    case SWait => s.clientWrote == 0
    case SLock => s.mutex == 0
    case SLock2 => s.mutex == 0
    case SDone => true
    case SExit => true
    case _ => false
  }

  /** Store a cell in the client's sector. */
  function Store(s: State, x: Cell): State
    requires s.cnt < |s.s0| == |s.s1|
  {
    var s' := s.(produced := s.produced + [x]);
    if s.csector == 0 then s'.(s0 := s.s0[s.cnt := x]) else s'.(s1 := s.s1[s.cnt := x])
  }

  /** One cell; the last one of a sector carries the next address. */
  function Produced(c: Config, s: State): State
    requires Sized(c, s)
  {
    var tmp' := (s.tmp + 1) % WORD;
    if s.cnt != c.ndata - 1 then
      Store(s, Cell(s.cnt, s.tmp, 0xf0f0f0f0)).(cnt := s.cnt + 1, tmp := tmp', cpc := CLock)
    else
      Store(s, Cell(s.cnt, tmp', 0xf0f0f0f0)).(cnt := 0, tmp := tmp', cpc := CLock2)
  }

  /** The client's sector is full. */
  function Filled(s: State): State {
    if s.status == 1 || s.status == 2 then s.(status := 3, fills := s.fills + 1, cpc := CFlip)
    else if s.status == 0 then s.(status := if s.nextToWrite == 0 then 1 else 2, fills := s.fills + 1, cpc := CFlip)
    else s.(cpc := CExit)
  }

  /** The next cell of the server's sector, if it needs one. */
  function Read(c: Config, s: State): State
    requires Sized(c, s)
  {
    if s.i < c.ndata && s.iCount < c.desired then
      s.(consumed := s.consumed + [Sector(s, s.ssector)[s.i]], i := s.i + 1, iCount := s.iCount + 1)
    else s.(spc := SLock2)
  }

  /** The server's sector is empty. */
  function Drained(s: State): State {
    if s.status == 1 || s.status == 2 then s.(status := 0, drains := s.drains + 1, spc := SFlip)
    else if s.status == 3 then s.(status := if s.nextToRead == 0 then 2 else 1, drains := s.drains + 1, spc := SFlip)
    else s.(spc := SExit)
  }

  /** One step of the client; a blocked client stays where it is. */
  function ClientNext(c: Config, s: State): (s': State)
    requires Sized(c, s)
    ensures Sized(c, s')
  {
    if ClientBlocked(s) then s else
    match s.cpc
    case CInit => s.(serverRead := s.serverRead - 1, clientWaits := s.clientWaits + 1, cpc := CLock)
    case CLock => s.(mutex := s.mutex - 1, cpc := CReadStatus)
    case CReadStatus => s.(cstatus := s.status, cpc := CUnlock)
    case CUnlock => s.(mutex := s.mutex + 1, cpc := CBranch)
    case CBranch =>
      if s.cstatus != 3 then s.(csector := if s.nextToWrite == 0 then 0 else 1, cpc := CWrite)
      else s.(cpc := CWait)
    case CWrite => Produced(c, s)
    case CLock2 => s.(mutex := s.mutex - 1, cpc := CSwitch)
    case CSwitch => Filled(s)
    case CFlip => s.(nextToWrite := Xor1(s.nextToWrite), cpc := CPost)
    case CPost => s.(clientWrote := s.clientWrote + 1, cpc := CUnlock2)
    case CUnlock2 => s.(mutex := s.mutex + 1, cpc := CLock)
    case CWait => s.(serverRead := s.serverRead - 1, clientWaits := s.clientWaits + 1, cpc := CLock)
    case CExit => s
  }

  /** One step of the server. */
  function ServerNext(c: Config, s: State): (s': State)
    requires Sized(c, s)
    ensures Sized(c, s')
  {
    if ServerBlocked(s) then s else
    match s.spc
    case SCheck => s.(spc := if s.iCount < c.desired then SLock else SDone)
    case SLock => s.(mutex := s.mutex - 1, spc := SReadStatus)
    case SReadStatus => s.(sstatus := s.status, spc := SUnlock)
    case SUnlock => s.(mutex := s.mutex + 1, spc := SBranch)
    case SBranch =>
      if s.sstatus == 0 then s.(spc := SWait)
      else s.(ssector := if s.nextToRead == 0 then 0 else 1, i := 0, spc := SRead)
    case SWait => s.(clientWrote := s.clientWrote - 1, serverWaits := s.serverWaits + 1, spc := SCheck)
    case SRead => Read(c, s)
    case SLock2 => s.(mutex := s.mutex - 1, spc := SSwitch)
    case SSwitch => Drained(s)
    case SFlip => s.(nextToRead := Xor1(s.nextToRead), spc := SPost)
    case SPost => s.(serverRead := s.serverRead + 1, spc := SUnlock2)
    case SUnlock2 => s.(mutex := s.mutex + 1, spc := SCheck)
    case SDone => s
    case SExit => s
  }

  datatype Process = Client | Server

  function Step(c: Config, s: State, p: Process): (s': State)
    requires Sized(c, s)
    ensures Sized(c, s')
  {
    match p
    case Client => ClientNext(c, s)
    case Server => ServerNext(c, s)
  }

  /** The state after a schedule. */
  function Run(c: Config, s: State, schedule: seq<Process>): (s': State)
    requires Sized(c, s)
    ensures Sized(c, s')
  {
    if schedule == [] then s
    else Step(c, Run(c, s, schedule[..|schedule| - 1]), schedule[|schedule| - 1])
  }

  // ----- The invariant

  function B(b: bool): nat {
    if b then 1 else 0
  }

  predicate ClientHoldsMutex(s: State) {
    s.cpc.CReadStatus? || s.cpc.CUnlock? || s.cpc.CSwitch? || s.cpc.CFlip? || s.cpc.CPost? || s.cpc.CUnlock2?
  }

  predicate ServerHoldsMutex(s: State) {
    s.spc.SReadStatus? || s.spc.SUnlock? || s.spc.SSwitch? || s.spc.SFlip? || s.spc.SPost? || s.spc.SUnlock2?
  }

  /** The status word that describes which of the two sectors are full. */
  function StatusOf(drains: nat, fills: nat): int {
    if fills == drains then 0
    else if fills == drains + 1 then (if drains % 2 == 0 then 1 else 2)
    else 3
  }

  /** status and the two cursors are what the numbers of filled and read sectors say. */
  ghost predicate Cursors(s: State) {
    && s.drains <= s.fills <= s.drains + 2
    && s.status == StatusOf(s.drains, s.fills)
    && s.nextToWrite == (if s.cpc.CFlip? then 1 - s.fills % 2 else s.fills % 2)
    && s.nextToRead == (if s.spc.SFlip? then 1 - s.drains % 2 else s.drains % 2)
    && !s.cpc.CExit? && !s.spc.SExit?
  }

  ghost predicate Mutex(s: State) {
    s.mutex + B(ClientHoldsMutex(s)) + B(ServerHoldsMutex(s)) == 1
  }

  /** The counting semaphores hold what was posted and not yet waited for. */
  ghost predicate Tokens(s: State) {
    && s.clientWrote + s.serverWaits + B(s.cpc.CFlip? || s.cpc.CPost?) == s.fills
    && s.serverRead + s.clientWaits + B(s.spc.SFlip? || s.spc.SPost?) == 1 + s.drains
  }

  ghost predicate Counters(s: State) {
    Cursors(s) && Mutex(s) && Tokens(s)
  }

  /** The client has read status 3 and is on its way to wait. */
  predicate ClientSawFull(s: State) {
    s.cpc.CWait? || ((s.cpc.CUnlock? || s.cpc.CBranch?) && s.cstatus == 3)
  }

  /** The server has read status 0 and is on its way to wait. */
  predicate ServerSawEmpty(s: State) {
    s.spc.SWait? || ((s.spc.SUnlock? || s.spc.SBranch?) && s.sstatus == 0)
  }

  ghost predicate ClientLocals(c: Config, s: State) {
    && (s.cnt > 0 || s.cpc.CWrite? || s.cpc.CLock2? || s.cpc.CSwitch? ==> s.fills < s.drains + 2)
    && ((s.cpc.CUnlock? || s.cpc.CBranch?) && s.cstatus != 3 ==> s.fills < s.drains + 2)
    && (s.cpc.CWrite? ==> s.csector == s.fills % 2)
    && (s.cpc.CInit? || s.cpc.CLock2? || s.cpc.CSwitch? || s.cpc.CFlip? || s.cpc.CPost? || s.cpc.CUnlock2?
        ==> s.cnt == 0)
    && (ClientSawFull(s) ==> s.cnt == 0)
    && (s.cpc.CInit? ==> s.clientWaits == 0)
    && (ClientSawFull(s) ==> s.status == 3 || s.serverRead > 0 || s.spc.SFlip? || s.spc.SPost?)
  }

  ghost predicate ServerLocals(c: Config, s: State) {
    && ((s.spc.SUnlock? || s.spc.SBranch?) && s.sstatus != 0 ==> s.drains < s.fills)
    && (s.spc.SRead? || s.spc.SLock2? || s.spc.SSwitch? ==> s.drains < s.fills)
    && (s.spc.SRead? ==> s.ssector == s.drains % 2)
    && (ServerSawEmpty(s) ==> s.status == 0 || s.clientWrote > 0 || s.cpc.CFlip? || s.cpc.CPost?)
  }

  ghost predicate Control(c: Config, s: State) {
    Counters(s) && ClientLocals(c, s) && ServerLocals(c, s)
  }

  lemma ClientKeepsCursors(c: Config, s: State)
    requires Sized(c, s) && Cursors(s) && Tokens(s) && ClientLocals(c, s) && ServerLocals(c, s)
    ensures Cursors(ClientNext(c, s))
  {
    hide Tokens;
    match s.cpc { case CInit => case CLock => case CReadStatus => case CUnlock => case CBranch => case CWrite =>
      case CLock2 => case CSwitch => case CFlip => case CPost => case CUnlock2 => case CWait => case CExit => }
  }

  lemma ClientKeepsMutex(c: Config, s: State)
    requires Sized(c, s) && Mutex(s) && !ClientNext(c, s).cpc.CExit?
    ensures Mutex(ClientNext(c, s))
  {
    match s.cpc { case CInit => case CLock => case CReadStatus => case CUnlock => case CBranch => case CWrite =>
      case CLock2 => case CSwitch => case CFlip => case CPost => case CUnlock2 => case CWait => case CExit => }
  }

  lemma ClientKeepsTokens(c: Config, s: State)
    requires Sized(c, s) && Tokens(s) && !ClientNext(c, s).cpc.CExit?
    ensures Tokens(ClientNext(c, s))
  {
    match s.cpc { case CInit => case CLock => case CReadStatus => case CUnlock => case CBranch => case CWrite =>
      case CLock2 => case CSwitch => case CFlip => case CPost => case CUnlock2 => case CWait => case CExit => }
  }

  lemma ClientKeepsClientLocals(c: Config, s: State)
    requires Sized(c, s) && Control(c, s)
    ensures ClientLocals(c, ClientNext(c, s))
  {
    match s.cpc { case CInit => case CLock => case CReadStatus => case CUnlock => case CBranch => case CWrite =>
      case CLock2 => case CSwitch => case CFlip => case CPost => case CUnlock2 => case CWait => case CExit => }
  }

  lemma ClientKeepsServerLocals(c: Config, s: State)
    requires Sized(c, s) && Control(c, s)
    ensures ServerLocals(c, ClientNext(c, s))
  {
    match s.cpc { case CInit => case CLock => case CReadStatus => case CUnlock => case CBranch => case CWrite =>
      case CLock2 => case CSwitch => case CFlip => case CPost => case CUnlock2 => case CWait => case CExit => }
  }

  lemma ServerKeepsCursors(c: Config, s: State)
    requires Sized(c, s) && Cursors(s) && Tokens(s) && ClientLocals(c, s) && ServerLocals(c, s)
    ensures Cursors(ServerNext(c, s))
  {
    hide Tokens;
    match s.spc { case SCheck => case SLock => case SReadStatus => case SUnlock => case SBranch => case SWait =>
      case SRead => case SLock2 => case SSwitch => case SFlip => case SPost => case SUnlock2 => case SDone =>
      case SExit => }
  }

  lemma ServerKeepsMutex(c: Config, s: State)
    requires Sized(c, s) && Mutex(s) && !ServerNext(c, s).spc.SExit?
    ensures Mutex(ServerNext(c, s))
  {
    match s.spc { case SCheck => case SLock => case SReadStatus => case SUnlock => case SBranch => case SWait =>
      case SRead => case SLock2 => case SSwitch => case SFlip => case SPost => case SUnlock2 => case SDone =>
      case SExit => }
  }

  lemma ServerKeepsTokens(c: Config, s: State)
    requires Sized(c, s) && Tokens(s) && !ServerNext(c, s).spc.SExit?
    ensures Tokens(ServerNext(c, s))
  {
    match s.spc { case SCheck => case SLock => case SReadStatus => case SUnlock => case SBranch => case SWait =>
      case SRead => case SLock2 => case SSwitch => case SFlip => case SPost => case SUnlock2 => case SDone =>
      case SExit => }
  }

  lemma DrainKeepsClientLocals(c: Config, s: State)
    requires Sized(c, s) && Control(c, s) && s.spc.SSwitch?
    ensures ClientLocals(c, Drained(s))
  {
  }

  lemma ServerKeepsClientLocals(c: Config, s: State)
    requires Sized(c, s) && Control(c, s)
    ensures ClientLocals(c, ServerNext(c, s))
  {
    if s.spc.SSwitch? {
      DrainKeepsClientLocals(c, s);
    } else {
      hide Drained, StatusOf;
      match s.spc { case SCheck => case SLock => case SReadStatus => case SUnlock => case SBranch => case SWait =>
        case SRead => case SLock2 => case SFlip => case SPost => case SUnlock2 => case SDone => case SExit => }
    }
  }

  lemma ServerKeepsServerLocals(c: Config, s: State)
    requires Sized(c, s) && Control(c, s)
    ensures ServerLocals(c, ServerNext(c, s))
  {
    if s.spc.SSwitch? {
      DrainKeepsServerLocals(c, s);
    } else {
      hide Drained;
      match s.spc { case SCheck => case SLock => case SReadStatus => case SUnlock => case SBranch => case SWait =>
        case SRead => case SLock2 => case SFlip => case SPost => case SUnlock2 => case SDone => case SExit => }
    }
  }

  lemma DrainKeepsServerLocals(c: Config, s: State)
    requires Sized(c, s) && Control(c, s) && s.spc.SSwitch?
    ensures ServerLocals(c, Drained(s))
  {
  }

  lemma ControlStays(c: Config, s: State, p: Process)
    requires Sized(c, s) && Control(c, s)
    ensures Control(c, Step(c, s, p))
  {
    match p
    case Client =>
      ClientKeepsCursors(c, s);
      ClientKeepsMutex(c, s);
      ClientKeepsTokens(c, s);
      ClientKeepsClientLocals(c, s);
      ClientKeepsServerLocals(c, s);
    case Server =>
      ServerKeepsCursors(c, s);
      ServerKeepsMutex(c, s);
      ServerKeepsTokens(c, s);
      ServerKeepsClientLocals(c, s);
      ServerKeepsServerLocals(c, s);
  }

  // ----- The data

  /** The position of the k-th produced cell in its sector: k modulo ndata, counted out. */
  function Offset(ndata: nat, k: nat): (j: nat)
    requires ndata > 0
    ensures j < ndata
  {
    if k == 0 || Offset(ndata, k - 1) == ndata - 1 then 0 else Offset(ndata, k - 1) + 1
  }

  /** The number of the first cell of the r-th filled sector: r times ndata. */
  function Start(ndata: nat, r: nat): nat {
    if r == 0 then 0 else Start(ndata, r - 1) + ndata
  }

  lemma {:induction false} OffsetInSector(n: nat, r: nat, j: nat)
    requires j < n
    ensures Offset(n, Start(n, r) + j) == j
    decreases r, j
  {
    if j > 0 {
      OffsetInSector(n, r, j - 1);
    } else if r > 0 {
      OffsetInSector(n, r - 1, n - 1);
    }
  }

  /** Counting out is dividing. */
  lemma {:induction false} CountedOut(n: nat, k: nat, r: nat)
    requires n > 0
    ensures Offset(n, k) == k % n && Start(n, r) == r * n
    decreases k + r
  {
    if k > 0 {
      CountedOut(n, k - 1, 0);
      ModNext(k - 1, n);
    }
    if r > 0 {
      CountedOut(n, 0, r - 1);
      assert r * n == (r - 1) * n + n;
    }
  }

  /** The k-th cell the client ever produces.  The last cell of each sector carries the next address. */
  function CellAt(ndata: nat, k: nat): Cell
    requires ndata > 0
  {
    var j := Offset(ndata, k);
    Cell(j, (k + B(j == ndata - 1)) % WORD, 0xf0f0f0f0)
  }

  /** Cell k carries its position, k modulo ndata, and the address k, but k + 1 at the end of a sector. */
  lemma CellAtExactly(ndata: nat, k: nat)
    requires ndata > 0
    ensures var x := CellAt(ndata, k);
            && x.pc == k % ndata && x.tnt == 0xf0f0f0f0
            && x.tAddr == (if k % ndata == ndata - 1 then k + 1 else k) % 0x1_0000_0000_0000_0000
  {
    CountedOut(ndata, k, 0);
  }

  /** These are the first cells of the client's stream, in order. */
  ghost predicate InOrder(ndata: nat, cells: seq<Cell>)
    requires ndata > 0
  {
    forall k :: 0 <= k < |cells| ==> cells[k] == CellAt(ndata, k)
  }

  /** The first n cells of a sector are those of the r-th round. */
  ghost predicate Holds(ndata: nat, cells: seq<Cell>, r: nat, n: nat)
    requires |cells| == ndata > 0 && n <= ndata
  {
    forall j :: 0 <= j < n ==> cells[j] == CellAt(ndata, Start(ndata, r) + j)
  }

  /** Both sectors, given their contents: the one being filled holds the written cells of its
      round, and every full one holds all cells of its round. */
  ghost predicate SectorsHold(ndata: nat, s0: seq<Cell>, s1: seq<Cell>, fills: nat, drains: nat, written: nat)
    requires |s0| == |s1| == ndata > 0 && written <= ndata
  {
    && Holds(ndata, if fills % 2 == 0 then s0 else s1, fills, written)
    && (drains < fills ==> Holds(ndata, if drains % 2 == 0 then s0 else s1, drains, ndata))
    && (drains + 2 == fills ==> Holds(ndata, if drains % 2 == 0 then s1 else s0, drains + 1, ndata))
  }

  ghost predicate Stream(ndata: nat, produced: seq<Cell>, tmp: nat, fills: nat, written: nat)
    requires ndata > 0
  {
    |produced| == Start(ndata, fills) + written && InOrder(ndata, produced) && tmp == |produced| % WORD
  }

  /** Cells the client has put into the sector it is filling. */
  function Written(c: Config, s: State): nat {
    if s.cpc.CLock2? || s.cpc.CSwitch? then c.ndata else s.cnt
  }

  ghost predicate Processed(ndata: nat, consumed: seq<Cell>, iCount: nat)
    requires ndata > 0
  {
    |consumed| == iCount && InOrder(ndata, consumed)
  }

  /** How far the server has come. */
  ghost predicate Position(c: Config, s: State) {
    && (s.iCount <= c.desired || s.iCount == 0)
    && (if s.spc.SRead? || s.spc.SLock2? || s.spc.SSwitch? then
          s.i <= c.ndata && s.iCount == Start(c.ndata,
              s.drains) + s.i && (!s.spc.SRead? ==> s.i == c.ndata || s.iCount >= c.desired)
        else s.iCount <= Start(c.ndata, s.drains) && (s.iCount < c.desired ==> s.iCount == Start(c.ndata, s.drains)))
    && (s.spc.SLock? || s.spc.SReadStatus? || s.spc.SUnlock? || s.spc.SBranch? ==> s.iCount < c.desired)
    && (s.spc.SDone? ==> s.iCount >= c.desired)
  }

  ghost predicate Data(c: Config, s: State)
    requires Sized(c, s)
  {
    && SectorsHold(c.ndata, s.s0, s.s1, s.fills, s.drains, Written(c, s))
    && Stream(c.ndata, s.produced, s.tmp, s.fills, Written(c, s))
    && Processed(c.ndata, s.consumed, s.iCount)
    && Position(c, s)
  }

  lemma NextMod(k: nat)
    ensures (k % WORD + 1) % WORD == (k + 1) % WORD
  {
  }

  lemma StreamGrows(n: nat, produced: seq<Cell>, tmp: nat, fills: nat, written: nat)
    requires written < n && Stream(n, produced, tmp, fills, written)
    ensures var tmp' := (tmp + 1) % WORD;
            var x := Cell(written, if written != n - 1 then tmp else tmp', 0xf0f0f0f0);
            x == CellAt(n, Start(n, fills) + written) && Stream(n, produced + [x], tmp', fills, written + 1)
  {
    NextMod(|produced|);
    OffsetInSector(n, fills, written);
    hide Offset;
  }

  lemma SectorGrows(n: nat, s0: seq<Cell>, s1: seq<Cell>, fills: nat, drains: nat, written: nat)
    requires |s0| == |s1| == n && written < n && drains <= fills < drains + 2
    requires SectorsHold(n, s0, s1, fills, drains, written)
    ensures var x := CellAt(n, Start(n, fills) + written);
            if fills % 2 == 0 then SectorsHold(n, s0[written := x], s1, fills, drains, written + 1)
            else SectorsHold(n, s0, s1[written := x], fills, drains, written + 1)
  {
    hide CellAt;
  }

  lemma WriteData(c: Config, s: State)
    requires Sized(c, s) && Data(c, s) && s.cpc.CWrite? && s.csector == s.fills % 2
             && s.drains <= s.fills < s.drains + 2
    ensures Data(c, ClientNext(c, s))
  {
    hide SectorsHold, Stream, CellAt, Processed;
    StreamGrows(c.ndata, s.produced, s.tmp, s.fills, s.cnt);
    SectorGrows(c.ndata, s.s0, s.s1, s.fills, s.drains, s.cnt);
  }

  /** A sector that has been filled becomes a full one. */
  lemma SectorsFill(n: nat, s0: seq<Cell>, s1: seq<Cell>, fills: nat, drains: nat)
    requires |s0| == |s1| == n > 0 && drains <= fills < drains + 2
    requires SectorsHold(n, s0, s1, fills, drains, n)
    ensures SectorsHold(n, s0, s1, fills + 1, drains, 0)
  {
    hide Holds;
    HoldsNothing(n, s0, fills + 1);
    HoldsNothing(n, s1, fills + 1);
  }

  lemma StreamFills(n: nat, produced: seq<Cell>, tmp: nat, fills: nat)
    requires n > 0 && Stream(n, produced, tmp, fills, n)
    ensures Stream(n, produced, tmp, fills + 1, 0)
  {
    hide InOrder;
  }

  lemma FillData(c: Config, s: State)
    requires Sized(c, s) && Data(c, s) && s.cpc.CSwitch? && s.cnt == 0 && s.drains <= s.fills < s.drains + 2
    requires 0 <= s.status <= 2
    ensures Data(c, ClientNext(c, s))
  {
    hide SectorsHold, Stream, Processed;
    SectorsFill(c.ndata, s.s0, s.s1, s.fills, s.drains);
    StreamFills(c.ndata, s.produced, s.tmp, s.fills);
  }

  lemma HoldsNothing(n: nat, cells: seq<Cell>, r: nat)
    requires |cells| == n > 0
    ensures Holds(n, cells, r, 0)
  {
  }

  lemma ClientData(c: Config, s: State)
    requires Sized(c, s) && Cursors(s) && ClientLocals(c, s) && Data(c, s)
    ensures Data(c, ClientNext(c, s))
  {
    hide SectorsHold, Stream, Processed;
    match s.cpc
    case CWrite => WriteData(c, s);
    case CSwitch => FillData(c, s);
    case CInit => case CLock => case CReadStatus => case CUnlock => case CBranch => case CLock2 =>
    case CFlip => case CPost => case CUnlock2 => case CWait => case CExit =>
  }

  lemma ReadCell(n: nat, cells: seq<Cell>, r: nat, i: nat, consumed: seq<Cell>)
    requires |cells| == n > i && Holds(n, cells, r, n)
    requires Processed(n, consumed, Start(n, r) + i)
    ensures Processed(n, consumed + [cells[i]], Start(n, r) + i + 1)
  {
    hide CellAt;
  }

  lemma FullSector(n: nat, s0: seq<Cell>, s1: seq<Cell>, fills: nat, drains: nat, written: nat)
    requires |s0| == |s1| == n > 0 && written <= n && drains < fills
    requires SectorsHold(n, s0, s1, fills, drains, written)
    ensures Holds(n, if drains % 2 == 0 then s0 else s1, drains, n)
  {
  }

  /** A sector that has been read is no longer a full one. */
  lemma DrainData(n: nat, s0: seq<Cell>, s1: seq<Cell>, fills: nat, drains: nat, written: nat)
    requires |s0| == |s1| == n > 0 && written <= n && drains < fills <= drains + 2
    requires SectorsHold(n, s0, s1, fills, drains, written)
    ensures SectorsHold(n, s0, s1, fills, drains + 1, written)
    ensures Start(n, drains + 1) == Start(n, drains) + n
  {
    hide Holds;
  }

  lemma ReadData(c: Config, s: State)
    requires Sized(c, s) && Data(c, s) && s.spc.SRead? && s.ssector == s.drains % 2 && s.drains < s.fills
    ensures Data(c, Read(c, s))
  {
    hide Stream, Processed, SectorsHold, Holds;
    FullSector(c.ndata, s.s0, s.s1, s.fills, s.drains, Written(c, s));
    if s.i < c.ndata {
      ReadCell(c.ndata, Sector(s, s.ssector), s.drains, s.i, s.consumed);
    }
  }

  lemma DrainedData(c: Config, s: State)
    requires Sized(c, s) && Data(c, s) && s.spc.SSwitch? && s.drains < s.fills <= s.drains + 2 && 1 <= s.status <= 3
    ensures Data(c, Drained(s))
  {
    hide Stream, Processed, SectorsHold, Holds;
    DrainData(c.ndata, s.s0, s.s1, s.fills, s.drains, Written(c, s));
  }

  lemma ServerData(c: Config, s: State)
    requires Sized(c, s) && Cursors(s) && ServerLocals(c, s) && Data(c, s)
    ensures Data(c, ServerNext(c, s))
  {
    hide Stream, Processed, SectorsHold, Holds, Read, Drained;
    match s.spc
    case SRead => ReadData(c, s);
    case SSwitch => DrainedData(c, s);
    case SCheck => case SLock => case SReadStatus => case SUnlock => case SBranch => case SWait => case SLock2 =>
    case SFlip => case SPost => case SUnlock2 => case SDone => case SExit =>
  }

  // ----- Every run

  ghost predicate Invariant(c: Config, s: State) {
    Sized(c, s) && Control(c, s) && Data(c, s)
  }

  lemma InvariantStarts(c: Config, s: State)
    requires Initial(c, s)
    ensures Invariant(c, s)
  {
  }

  lemma InvariantStays(c: Config, s: State, p: Process)
    requires Invariant(c, s)
    ensures Invariant(c, Step(c, s, p))
  {
    hide SectorsHold, Stream, Processed, Position;
    ControlStays(c, s, p);
    match p
    case Client => ClientData(c, s);
    case Server => ServerData(c, s);
  }

  /** Every interleaving keeps the invariant. */
  lemma {:induction false} RunKeepsInvariant(c: Config, s: State, schedule: seq<Process>)
    requires Initial(c, s)
    ensures Invariant(c, Run(c, s, schedule))
  {
    hide Invariant, Step;
    if schedule == [] {
      InvariantStarts(c, s);
    } else {
      var before := schedule[..|schedule| - 1];
      RunKeepsInvariant(c, s, before);
      InvariantStays(c, Run(c, s, before), schedule[|schedule| - 1]);
    }
  }

  /** First in, first out: whatever the schedule, the server has processed a prefix of the cells the
      client has produced, both are the beginning of the client's stream, and a server that has left
      its loop has processed exactly the first desired cells. */
  lemma Fifo(c: Config, s0: State, schedule: seq<Process>)
    requires Initial(c, s0)
    ensures var s := Run(c, s0, schedule);
            && s.consumed <= s.produced
            && InOrder(c.ndata, s.produced) && InOrder(c.ndata, s.consumed)
            && (s.spc.SDone? ==> |s.consumed| == if c.desired > 0 then c.desired else 0)
            && !s.spc.SExit? && !s.cpc.CExit?
  {
    var s := Run(c, s0, schedule);
    RunKeepsInvariant(c, s0, schedule);
    ProcessedWasProduced(c, s);
  }

  lemma {:induction false} StartGrows(n: nat, r: nat, t: nat)
    requires r <= t
    ensures Start(n, r) <= Start(n, t) && (r < t ==> Start(n, r) + n <= Start(n, t))
    decreases t
  {
    if r < t { StartGrows(n, r, t - 1); }
  }

  lemma ProcessedWasProduced(c: Config, s: State)
    requires Invariant(c, s)
    ensures |s.consumed| <= |s.produced|
  {
    StartGrows(c.ndata, s.drains, s.fills);
  }

  /** Sector k is full: it holds a round that has been filled and not yet read. */
  ghost predicate Full(s: State, k: nat) {
    (s.drains < s.fills && s.drains % 2 == k) || (s.drains + 1 < s.fills && (s.drains + 1) % 2 == k)
  }

  /** In every reachable state the status word is the set of full sectors; the cursors agree exactly
      when none or both are full, except while one process is between changing the status and
      flipping its cursor, when it is the other way round; and the two processes never work on the
      same sector. */
  lemma SectorExclusion(c: Config, s0: State, schedule: seq<Process>)
    requires Initial(c, s0)
    ensures var s := Run(c, s0, schedule);
            && s.drains <= s.fills <= s.drains + 2
            && s.status == (if Full(s, 0) then 1 else 0) + (if Full(s, 1) then 2 else 0)
            && !(s.cpc.CFlip? && s.spc.SFlip?)
            && ((s.nextToRead == s.nextToWrite) <==>
                  if s.cpc.CFlip? || s.spc.SFlip? then s.status == 1 || s.status == 2
                    else s.status == 0 || s.status == 3)
            && (s.cpc.CWrite? && s.spc.SRead? ==> s.csector != s.ssector)
            && !(ClientHoldsMutex(s) && ServerHoldsMutex(s))
  {
    RunKeepsInvariant(c, s0, schedule);
    ExclusionIn(c, Run(c, s0, schedule));
  }

  /** The sector of round r. */
  function SectorOf(s: State, r: nat): seq<Cell> {
    if r % 2 == 0 then s.s0 else s.s1
  }

  /** In every reachable state each full sector holds the cells of its round, all of them. */
  lemma SectorContents(c: Config, s0: State, schedule: seq<Process>)
    requires Initial(c, s0)
    ensures var s := Run(c, s0, schedule);
            forall r: nat :: s.drains <= r < s.fills ==> |SectorOf(s, r)| == c.ndata && Holds(c.ndata, SectorOf(s, r),
                r, c.ndata)
  {
    hide Holds, Invariant, Run;
    RunKeepsInvariant(c, s0, schedule);
    var s := Run(c, s0, schedule);
    forall r: nat | s.drains <= r < s.fills
      ensures |SectorOf(s, r)| == c.ndata && Holds(c.ndata, SectorOf(s, r), r, c.ndata)
    {
      ContentsIn(c, s, r);
    }
  }

  lemma ContentsIn(c: Config, s: State, r: nat)
    requires Invariant(c, s) && s.drains <= r < s.fills
    ensures c.ndata > 0 && |SectorOf(s, r)| == c.ndata && Holds(c.ndata, SectorOf(s, r), r, c.ndata)
  {
    hide Holds, Stream, Processed, Position, Tokens, Mutex, ClientLocals, ServerLocals;
    assert s.fills <= s.drains + 2;
    assert r == s.drains || (r == s.drains + 1 && s.fills == s.drains + 2);
  }

  lemma ExclusionIn(c: Config, s: State)
    requires Control(c, s)
    ensures s.drains <= s.fills <= s.drains + 2
    ensures s.status == (if Full(s, 0) then 1 else 0) + (if Full(s, 1) then 2 else 0)
    ensures !(ClientHoldsMutex(s) && ServerHoldsMutex(s))
    ensures (s.nextToRead == s.nextToWrite) <==>
              if s.cpc.CFlip? || s.spc.SFlip? then s.status == 1 || s.status == 2 else s.status == 0 || s.status == 3
    ensures s.cpc.CWrite? && s.spc.SRead? ==> s.csector != s.ssector
  {
    hide Tokens;
  }

  /** No process that is on its way to wait has lost its wake-up, the two are never blocked
      together, and each counting semaphore holds what was posted and not yet waited for. */
  ghost predicate Wakeful(s: State) {
    && (ClientSawFull(s) ==> s.status == 3 || s.serverRead > 0 || s.spc.SFlip? || s.spc.SPost?)
    && (ServerSawEmpty(s) ==> s.status == 0 || s.clientWrote > 0 || s.cpc.CFlip? || s.cpc.CPost?)
    && (ClientBlocked(s) && ServerBlocked(s) ==> s.spc.SDone?)
    && s.clientWrote == s.fills - s.serverWaits - B(s.cpc.CFlip? || s.cpc.CPost?)
    && s.serverRead == 1 + s.drains - s.clientWaits - B(s.spc.SFlip? || s.spc.SPost?)
  }

  lemma ControlIsWakeful(c: Config, s: State)
    requires Control(c, s)
    ensures Wakeful(s)
  {
    hide StatusOf;
    assert s.status == 0 || s.status == 3 ==> s.fills != s.drains + 1 by { StatusTells(s); }
    assert s.status == 0 <==> s.fills == s.drains by { StatusTells(s); }
  }

  lemma StatusTells(s: State)
    requires Cursors(s)
    ensures s.status == 0 <==> s.fills == s.drains
    ensures s.status == 3 <==> s.fills == s.drains + 2
  {
  }

  lemma NoDeadlock(c: Config, s0: State, schedule: seq<Process>)
    requires Initial(c, s0)
    ensures Wakeful(Run(c, s0, schedule))
  {
    hide Wakeful, Control, Data;
    RunKeepsInvariant(c, s0, schedule);
    ControlIsWakeful(c, Run(c, s0, schedule));
  }

  // ----- A process that waits is released

  /** The state after n steps of one process alone. */
  function Alone(c: Config, s: State, p: Process, n: nat): (s': State)
    requires Sized(c, s)
    ensures Sized(c, s')
    decreases n
  {
    if n == 0 then s else Alone(c, Step(c, s, p), p, n - 1)
  }

  /** Server steps until the client's semaphore is posted. */
  function ServerRank(c: Config, s: State): int {
    match s.spc
    case SPost => 1
    case SFlip => 2
    case SSwitch => 3
    case SLock2 => 4
    case SRead => 5 + c.ndata - s.i
    case SBranch => if s.sstatus != 0 then c.ndata + 6 else c.ndata + 12
    case SUnlock => if s.sstatus != 0 then c.ndata + 7 else c.ndata + 13
    case SReadStatus => c.ndata + 8
    case SLock => c.ndata + 9
    case SCheck => c.ndata + 10
    case SWait => c.ndata + 11
    case SUnlock2 => c.ndata + 11
    case SDone => 0
    case SExit => 0
  }

  /** Client steps until the server's semaphore is posted. */
  function ClientRank(c: Config, s: State): int {
    var left := 5 * (c.ndata - 1 - s.cnt);
    match s.cpc
    case CPost => 1
    case CFlip => 2
    case CSwitch => 3
    case CLock2 => 4
    case CWrite => left + 5
    case CBranch => if s.cstatus != 3 then left + 6 else left + 11
    case CUnlock => if s.cstatus != 3 then left + 7 else left + 12
    case CReadStatus => left + 8
    case CLock => left + 9
    case CInit => left + 10
    case CWait => left + 10
    case CUnlock2 => left + 10
    case CExit => 0
  }

  lemma ServerGetsOn(c: Config, s: State)
    requires Invariant(c, s) && s.cpc.CWait? && s.serverRead == 0 && !s.spc.SDone?
    ensures var s' := ServerNext(c, s);
            s'.cpc.CWait? && (s'.serverRead > 0 || s'.spc.SDone? || 0 < ServerRank(c, s') < ServerRank(c, s))
    ensures 0 < ServerRank(c, s) <= c.ndata + 13
  {
    hide SectorsHold, Stream, Processed;
  }

  /** A client blocked on a full memory is released by the server alone, in a bounded number of
      steps, unless the server leaves its loop. */
  lemma {:induction false} ServerReleasesClient(c: Config, s: State) returns (n: nat)
    requires Invariant(c, s) && s.cpc.CWait? && s.serverRead == 0 && !s.spc.SDone?
    ensures n <= c.ndata + 13
    ensures var s' := Alone(c, s, Server, n); !ClientBlocked(s') || s'.spc.SDone?
    ensures n <= ServerRank(c, s)
    decreases ServerRank(c, s)
  {
    hide Control, Data, ServerNext, ServerRank;
    var s' := Step(c, s, Server);
    ServerGetsOn(c, s);
    InvariantStays(c, s, Server);
    n := 1;
    assert Alone(c, s, Server, 1) == Alone(c, s', Server, 0);
    if s'.serverRead == 0 && !s'.spc.SDone? {
      var n' := ServerReleasesClient(c, s');
      n := n' + 1;
    }
  }

  lemma ClientGetsOn(c: Config, s: State)
    requires Invariant(c, s) && s.spc.SWait? && s.clientWrote == 0
    ensures var s' := ClientNext(c, s);
            s'.spc.SWait? && (s'.clientWrote > 0 || 0 < ClientRank(c, s') < ClientRank(c, s))
    ensures 0 < ClientRank(c, s) <= 5 * c.ndata + 7
  {
    hide SectorsHold, Stream, Processed;
  }

  /** A server blocked on an empty memory is released by the client alone, in a bounded number of steps. */
  lemma {:induction false} ClientReleasesServer(c: Config, s: State) returns (n: nat)
    requires Invariant(c, s) && s.spc.SWait? && s.clientWrote == 0
    ensures n <= 5 * c.ndata + 7
    ensures !ServerBlocked(Alone(c, s, Client, n))
    ensures n <= ClientRank(c, s)
    decreases ClientRank(c, s)
  {
    hide Control, Data, ClientNext, ClientRank;
    var s' := Step(c, s, Client);
    ClientGetsOn(c, s);
    InvariantStays(c, s, Client);
    n := 1;
    assert Alone(c, s, Client, 1) == Alone(c, s', Client, 0);
    if s'.clientWrote == 0 {
      var n' := ClientReleasesServer(c, s');
      n := n' + 1;
    }
  }
}
