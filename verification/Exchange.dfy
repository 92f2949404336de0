/** The two processes as they run: each call performs one atomic action on the shared memory. */
module Exchange {
  import opened SharedMemory

  /** The steps that do more than move on. */
  lemma ClientAt(c: Config, s: State)
    requires Sized(c, s)
    ensures s.cpc.CWrite? ==> ClientNext(c, s) == Produced(c, s)
    ensures s.cpc.CSwitch? ==> ClientNext(c, s) == Filled(s)
  {
  }

  lemma ServerAt(c: Config, s: State)
    requires Sized(c, s)
    ensures s.spc.SRead? ==> ServerNext(c, s) == Read(c, s)
    ensures s.spc.SSwitch? ==> ServerNext(c, s) == Drained(s)
  {
  }

  class Machine {
    const ndata: nat
    const desired: int
    // struct sharedMemory
    const shm_s0: array<Cell>
    const shm_s1: array<Cell>
    var status: int
    var nextToRead: int
    var nextToWrite: int
    // the semaphores
    var statusMutex: nat
    var clientWrote: nat
    var serverRead: nat
    // the client
    var cpc: ClientPc
    var cnt: nat
    var tmp: nat
    var clientStatus: int
    var clientSector: int
    // the server
    var spc: ServerPc
    var i: nat
    var iCount: nat
    var serverStatus: int
    var serverSector: int
    // history
    ghost var produced: seq<Cell>
    ghost var consumed: seq<Cell>
    ghost var fills: nat
    ghost var drains: nat
    ghost var clientWaits: nat
    ghost var serverWaits: nat

    ghost function Parameters(): Config {
      Config(ndata, desired)
    }

    ghost function Image(): State
      reads this, shm_s0, shm_s1
    {
      State(shm_s0[..], shm_s1[..], status, nextToRead, nextToWrite, statusMutex, clientWrote, serverRead,
            cpc, cnt, tmp, clientStatus, clientSector, spc, i, iCount, serverStatus, serverSector,
            produced, consumed, fills, drains, clientWaits, serverWaits)
    }

    ghost predicate Valid()
      reads this
    {
      shm_s0 != shm_s1 && shm_s0.Length == shm_s1.Length == ndata && cnt < ndata
    }

    /** The server's initialisations, with the client not yet past its first wait. */
    constructor (n: nat, budget: int, empty: Cell)
      requires n > 0
      ensures Valid() && fresh(shm_s0) && fresh(shm_s1) && Initial(Parameters(), Image())
      ensures ndata == n && desired == budget
    {
      ndata, desired := n, budget;
      shm_s0, shm_s1 := new Cell[n](_ => empty), new Cell[n](_ => empty);
      status, nextToRead, nextToWrite := 0, 0, 0;
      statusMutex, clientWrote, serverRead := 1, 0, 1;
      cpc, cnt, tmp, clientStatus, clientSector := CInit, 0, 0, 0, 0;
      spc, i, iCount, serverStatus, serverSector := SCheck, 0, 0, 0, 0;
      produced, consumed, fills, drains, clientWaits, serverWaits := [], [], 0, 0, 0, 0;
    }

    method WriteCell(x: Cell)
      requires Valid()
      modifies shm_s0, shm_s1, `produced
      ensures Image() == Store(old(Image()), x)
    {
      if clientSector == 0 {
        shm_s0[cnt] := x;
      } else {
        shm_s1[cnt] := x;
      }
      produced := produced + [x];
    }

    /** Wait until the server has made room. */
    method ClientWait()
      requires Valid() && (cpc.CInit? || cpc.CWait?)
      modifies `serverRead, `clientWaits, `cpc
      ensures Valid() && Image() == ClientNext(Parameters(), old(Image()))
    {
      if serverRead > 0 {
        serverRead, clientWaits, cpc := serverRead - 1, clientWaits + 1, CLock;
      }
    }

    /** Enter the critical section. */
    method ClientLock()
      requires Valid() && (cpc.CLock? || cpc.CLock2?)
      modifies `statusMutex, `cpc
      ensures Valid() && Image() == ClientNext(Parameters(), old(Image()))
    {
      if statusMutex > 0 {
        statusMutex, cpc := statusMutex - 1, if cpc.CLock? then CReadStatus else CSwitch;
      }
    }

    /** Leave it. */
    method ClientUnlock()
      requires Valid() && (cpc.CUnlock? || cpc.CUnlock2?)
      modifies `statusMutex, `cpc
      ensures Valid() && Image() == ClientNext(Parameters(), old(Image()))
    {
      statusMutex, cpc := statusMutex + 1, if cpc.CUnlock? then CBranch else CLock;
    }

    /** Look at the status. */
    method ClientLook()
      requires Valid() && cpc.CReadStatus?
      modifies `clientStatus, `cpc
      ensures Valid() && Image() == ClientNext(Parameters(), old(Image()))
    {
      clientStatus, cpc := status, CUnlock;
    }

    /** Choose a sector, if one is free. */
    method ClientChoose()
      requires Valid() && cpc.CBranch?
      modifies `clientSector, `cpc
      ensures Valid() && Image() == ClientNext(Parameters(), old(Image()))
    {
      if clientStatus != 3 {
        clientSector := if nextToWrite == 0 then 0 else 1;
        cpc := CWrite;
      } else {
        cpc := CWait;
      }
    }

    /** On to the next address. */
    method ClientMoves(n: nat, pc: ClientPc)
      requires Valid() && n < ndata
      modifies `cnt, `tmp, `cpc
      ensures Valid() && Image() == old(Image()).(cnt := n, tmp := (old(tmp) + 1) % WORD, cpc := pc)
    {
      cnt, tmp, cpc := n, (tmp + 1) % WORD, pc;
    }

    /** Produce a cell that is not the last one of its sector. */
    method ClientProduce()
      requires Valid() && cpc.CWrite? && cnt != ndata - 1
      modifies shm_s0, shm_s1, `produced, `cnt, `tmp, `cpc
      ensures Valid() && Image() == ClientNext(Parameters(), old(Image()))
    {
      hide ClientNext;
      ClientAt(Parameters(), Image());
      hide Store;
      WriteCell(Cell(cnt, tmp, 0xf0f0f0f0));
      ClientMoves(cnt + 1, CLock);
    }

    /** Produce the last cell of a sector. */
    method ClientProduceLast()
      requires Valid() && cpc.CWrite? && cnt == ndata - 1
      modifies shm_s0, shm_s1, `produced, `cnt, `tmp, `cpc
      ensures Valid() && Image() == ClientNext(Parameters(), old(Image()))
    {
      hide ClientNext;
      ClientAt(Parameters(), Image());
      hide Store;
      WriteCell(Cell(cnt, (tmp + 1) % WORD, 0xf0f0f0f0));
      ClientMoves(0, CLock2);
    }

    /** Mark the sector as full. */
    method ClientFill()
      requires Valid() && cpc.CSwitch?
      modifies `status, `fills, `cpc
      ensures Valid() && Image() == ClientNext(Parameters(), old(Image()))
    {
      hide ClientNext;
      ClientAt(Parameters(), Image());
      if status == 1 || status == 2 {
        status, fills, cpc := 3, fills + 1, CFlip;
      } else if status == 0 {
        status := if nextToWrite == 0 then 1 else 2;
        fills, cpc := fills + 1, CFlip;
      } else {
        cpc := CExit;
      }
    }

    /** Turn to the other sector. */
    method ClientFlip()
      requires Valid() && cpc.CFlip?
      modifies `nextToWrite, `cpc
      ensures Valid() && Image() == ClientNext(Parameters(), old(Image()))
    {
      nextToWrite, cpc := Xor1(nextToWrite), CPost;
    }

    /** Tell the server. */
    method ClientPost()
      requires Valid() && cpc.CPost?
      modifies `clientWrote, `cpc
      ensures Valid() && Image() == ClientNext(Parameters(), old(Image()))
    {
      clientWrote, cpc := clientWrote + 1, CUnlock2;
    }

    /** One action of the client. */
    method ClientStep()
      requires Valid()
      modifies this, shm_s0, shm_s1
      ensures Valid() && Image() == ClientNext(Parameters(), old(Image()))
    {
      hide Image;
      match cpc
      case CInit => ClientWait();
      case CWait => ClientWait();
      case CLock => ClientLock();
      case CLock2 => ClientLock();
      case CUnlock => ClientUnlock();
      case CUnlock2 => ClientUnlock();
      case CReadStatus => ClientLook();
      case CBranch => ClientChoose();
      case CWrite =>
        if cnt != ndata - 1 {
          ClientProduce();
        } else {
          ClientProduceLast();
        }
      case CSwitch => ClientFill();
      case CFlip => ClientFlip();
      case CPost => ClientPost();
      case CExit => ClientStays();
    }

    lemma ClientStays()
      requires Valid() && cpc.CExit?
      ensures Image() == ClientNext(Parameters(), Image())
    {
    }

    /** Decide whether to go on. */
    method ServerCheck()
      requires Valid() && spc.SCheck?
      modifies `spc
      ensures Valid() && Image() == ServerNext(Parameters(), old(Image()))
    {
      spc := if iCount < desired then SLock else SDone;
    }

    /** Wait until the client has filled a sector. */
    method ServerWait()
      requires Valid() && spc.SWait?
      modifies `clientWrote, `serverWaits, `spc
      ensures Valid() && Image() == ServerNext(Parameters(), old(Image()))
    {
      if clientWrote > 0 {
        clientWrote, serverWaits, spc := clientWrote - 1, serverWaits + 1, SCheck;
      }
    }

    /** Enter the critical section. */
    method ServerLock()
      requires Valid() && (spc.SLock? || spc.SLock2?)
      modifies `statusMutex, `spc
      ensures Valid() && Image() == ServerNext(Parameters(), old(Image()))
    {
      if statusMutex > 0 {
        statusMutex, spc := statusMutex - 1, if spc.SLock? then SReadStatus else SSwitch;
      }
    }

    /** Leave it. */
    method ServerUnlock()
      requires Valid() && (spc.SUnlock? || spc.SUnlock2?)
      modifies `statusMutex, `spc
      ensures Valid() && Image() == ServerNext(Parameters(), old(Image()))
    {
      statusMutex, spc := statusMutex + 1, if spc.SUnlock? then SBranch else SCheck;
    }

    /** Look at the status. */
    method ServerLook()
      requires Valid() && spc.SReadStatus?
      modifies `serverStatus, `spc
      ensures Valid() && Image() == ServerNext(Parameters(), old(Image()))
    {
      serverStatus, spc := status, SUnlock;
    }

    /** Choose a sector, if one is full. */
    method ServerChoose()
      requires Valid() && spc.SBranch?
      modifies `serverSector, `i, `spc
      ensures Valid() && Image() == ServerNext(Parameters(), old(Image()))
    {
      if serverStatus == 0 {
        spc := SWait;
      } else {
        serverSector := if nextToRead == 0 then 0 else 1;
        i, spc := 0, SRead;
      }
    }

    /** Process one cell. */
    method ServerProcess()
      requires Valid() && spc.SRead?
      modifies `consumed, `i, `iCount, `spc
      ensures Valid() && Image() == ServerNext(Parameters(), old(Image()))
    {
      hide ServerNext;
      ServerAt(Parameters(), Image());
      if i < ndata && iCount < desired {
        var x := if serverSector == 0 then shm_s0[i] else shm_s1[i];
        consumed := consumed + [x];
        i, iCount := i + 1, iCount + 1;
      } else {
        spc := SLock2;
      }
    }

    /** Mark the sector as empty. */
    method ServerDrain()
      requires Valid() && spc.SSwitch?
      modifies `status, `drains, `spc
      ensures Valid() && Image() == ServerNext(Parameters(), old(Image()))
    {
      hide ServerNext;
      ServerAt(Parameters(), Image());
      if status == 1 || status == 2 {
        status, drains, spc := 0, drains + 1, SFlip;
      } else if status == 3 {
        status := if nextToRead == 0 then 2 else 1;
        drains, spc := drains + 1, SFlip;
      } else {
        spc := SExit;
      }
    }

    /** Turn to the other sector. */
    method ServerFlip()
      requires Valid() && spc.SFlip?
      modifies `nextToRead, `spc
      ensures Valid() && Image() == ServerNext(Parameters(), old(Image()))
    {
      nextToRead, spc := Xor1(nextToRead), SPost;
    }

    /** Tell the client. */
    method ServerPost()
      requires Valid() && spc.SPost?
      modifies `serverRead, `spc
      ensures Valid() && Image() == ServerNext(Parameters(), old(Image()))
    {
      serverRead, spc := serverRead + 1, SUnlock2;
    }

    /** One action of the server. */
    method ServerStep()
      requires Valid()
      modifies this
      ensures Valid() && Image() == ServerNext(Parameters(), old(Image()))
    {
      hide Image;
      match spc
      case SCheck => ServerCheck();
      case SWait => ServerWait();
      case SLock => ServerLock();
      case SLock2 => ServerLock();
      case SUnlock => ServerUnlock();
      case SUnlock2 => ServerUnlock();
      case SReadStatus => ServerLook();
      case SBranch => ServerChoose();
      case SRead => ServerProcess();
      case SSwitch => ServerDrain();
      case SFlip => ServerFlip();
      case SPost => ServerPost();
      case SDone => ServerStays();
      case SExit => ServerStays();
    }

    lemma ServerStays()
      requires Valid() && (spc.SDone? || spc.SExit?)
      ensures Image() == ServerNext(Parameters(), Image())
    {
    }

    /** What the client and the server rely on: the server has processed a prefix of what the client
        produced, both in the order of the stream; a server that is done has processed what it was
        to; no error exit was taken; the status word is the set of full sectors; the two never work
        on the same array; and each full array holds the cells of its round. */
    ghost predicate Delivered()
      reads this, shm_s0, shm_s1
    {
      && ndata > 0
      && consumed <= produced && InOrder(ndata, produced) && InOrder(ndata, consumed)
      && (spc.SDone? ==> |consumed| == if desired > 0 then desired else 0)
      && !cpc.CExit? && !spc.SExit?
      && drains <= fills <= drains + 2
      && status == (if Full(Image(), 0) then 1 else 0) + (if Full(Image(), 1) then 2 else 0)
      && (cpc.CWrite? && spc.SRead? ==> clientSector != serverSector)
      && forall r: nat :: drains <= r < fills ==> SectorFull(r)
    }

    ghost predicate SectorFull(r: nat)
      requires ndata > 0
      reads this, shm_s0, shm_s1
    {
      var cells := if r % 2 == 0 then shm_s0[..] else shm_s1[..];
      |cells| == ndata && Holds(ndata, cells, r, ndata)
    }

    lemma RunDelivers(s0: State, schedule: seq<Process>)
      requires Valid() && Initial(Parameters(), s0) && Image() == Run(Parameters(), s0, schedule)
      ensures Delivered()
    {
      hide Holds, InOrder, Run, Initial;
      Fifo(Parameters(), s0, schedule);
      SectorExclusion(Parameters(), s0, schedule);
      SectorContents(Parameters(), s0, schedule);
      InitialSize(s0);
      forall r: nat | drains <= r < fills ensures SectorFull(r) {
        assert SectorOf(Image(), r) == if r % 2 == 0 then shm_s0[..] else shm_s1[..];
      }
    }

    lemma InitialSize(s0: State)
      requires Initial(Parameters(), s0)
      ensures ndata > 0
    {
    }

    /** Let the processes act in the order of a schedule. */
    method Execute(schedule: seq<Process>)
      requires Valid()
      modifies this, shm_s0, shm_s1
      ensures Valid() && Image() == Run(Parameters(), old(Image()), schedule)
      ensures Initial(Parameters(), old(Image())) ==> Delivered()
    {
      hide Delivered, Initial;
      ghost var s0 := Image();
      for k := 0 to |schedule|
        invariant Valid() && Image() == Run(Parameters(), s0, schedule[..k])
      {
        assert schedule[..k + 1][..k] == schedule[..k];
        match schedule[k]
        case Client => ClientStep();
        case Server => ServerStep();
      }
      assert schedule[..|schedule|] == schedule;
      if Initial(Parameters(), s0) { RunDelivers(s0, schedule); }
    }
  }
}
