/** The BT9 reader's sliding window over the edge sequence list, and the iterator that drives it. */
module EdgeWindow {
  import opened Modular

  /** What a dereference yields; the two failures are the out_of_range exceptions. */
  datatype Access = Entry(id: nat) | Overflow | Underflow

  /** How the driver loop ends: by the end iterator, by an exception, or not yet. */
  datatype Stop = AtEnd | Thrown(why: Access) | Running

  /** The list of n entries ends exactly where a window of b entries is refilled. */
  predicate EndsOnRefill(n: nat, b: nat)
    requires b >= 2
  {
    n == 0 || (n >= b && (n - b) % (b / 2) == 0)
  }

  lemma SlotsDiffer(i: nat, j: nat, b: nat)
    requires i < j < i + b
    ensures i % b != j % b
  {
    var q, r := i / b, i % b;
    assert i == q * b + r;
    if r + (j - i) < b {
      DivModUnique(j, b, q, r + (j - i));
    } else {
      assert (q + 1) * b == q * b + b;
      DivModUnique(j, b, q + 1, r + (j - i) - b);
    }
  }

  /** Between two refill marks no list ends on a refill; on a mark it does. */
  lemma RefillMarks(n: nat, b: nat, shifts: nat)
    requires b >= 2 && b + shifts * (b / 2) <= n < b + shifts * (b / 2) + b / 2
    ensures EndsOnRefill(n, b) <==> n == b + shifts * (b / 2)
  {
    DivModUnique(n - b, b / 2, shifts, n - b - shifts * (b / 2));
  }

  class Reader {
    const buffer: array<nat>
    const list: seq<nat>        // the edge sequence list; entry buffer_end_ is read next
    var bufferBegin: nat
    var bufferEnd: nat
    var reachEof: bool
    ghost var shifts: nat       // refills so far
    ghost var mark: nat         // bufferEnd before the latest refill

    /** A window of one entry never moves: its stride is zero. */
    ghost predicate Strides()
      reads this
    {
      && bufferBegin == shifts * (buffer.Length / 2)
      && (!reachEof ==> bufferEnd == bufferBegin + buffer.Length <= |list|)
      && (reachEof ==> bufferEnd == |list|)
      && (reachEof && buffer.Length >= 2 ==> (EndsOnRefill(|list|, buffer.Length) <==> |list| == mark))
    }

    /** Entry i of the list is in slot i modulo the window size, for every i in the window. */
    ghost predicate Valid()
      reads this, buffer
    {
      && buffer.Length >= 1
      && bufferBegin <= mark <= bufferEnd <= |list| && bufferEnd <= bufferBegin + buffer.Length
      && (forall i :: bufferBegin <= i < bufferEnd ==> buffer[i % buffer.Length] == list[i])
      && Strides()
    }

    constructor (size: nat, entries: seq<nat>)
      requires size >= 1
      ensures Valid() && fresh(buffer) && buffer.Length == size
      ensures Start(this) && list == entries
    {
      buffer := new nat[size];
      list := entries;
      bufferBegin, bufferEnd, reachEof, shifts, mark := 0, 0, false, 0, 0;
      new;
      Refill(0);
      if reachEof && size >= 2 && |list| > 0 {
        assert |list| < size;
      }
    }

    /** The loop of the initialisation and of every shift. */
    method Refill(ghost first: nat)
      requires buffer.Length >= 1 && bufferBegin <= bufferEnd <= |list| && bufferEnd <= bufferBegin + buffer.Length
               && !reachEof
      requires first == bufferEnd
      requires forall i :: bufferBegin <= i < bufferEnd ==> buffer[i % buffer.Length] == list[i]
      modifies `bufferEnd, `reachEof, buffer
      ensures bufferBegin <= bufferEnd && first <= bufferEnd <= |list|
      ensures bufferEnd == (if |list| < bufferBegin + buffer.Length then |list| else bufferBegin + buffer.Length)
      ensures reachEof <==> |list| < bufferBegin + buffer.Length
      ensures forall i :: bufferBegin <= i < bufferEnd ==> buffer[i % buffer.Length] == list[i]
    {
      while bufferEnd < bufferBegin + buffer.Length
        invariant first <= bufferEnd <= |list| && bufferBegin <= bufferEnd <= bufferBegin + buffer.Length && !reachEof
        invariant forall i :: bufferBegin <= i < bufferEnd ==> buffer[i % buffer.Length] == list[i]
      {
        if bufferEnd == |list| {
          reachEof := true;
          break;
        }
        forall i | bufferBegin <= i < bufferEnd ensures i % buffer.Length != bufferEnd % buffer.Length {
          SlotsDiffer(i, bufferEnd, buffer.Length);
        }
        buffer[bufferEnd % buffer.Length] := list[bufferEnd];
        bufferEnd := bufferEnd + 1;
      }
    }

    /** Move the window forward by half its size; the first requires is the assert. */
    method Shift()
      requires !reachEof
      requires Valid()
      modifies `bufferBegin, `bufferEnd, `reachEof, `shifts, `mark, buffer
      ensures Valid() && mark == old(bufferEnd) && bufferBegin == old(bufferBegin) + buffer.Length / 2
      ensures bufferEnd == (if |list| < bufferBegin + buffer.Length then |list| else bufferBegin + buffer.Length)
      ensures reachEof <==> |list| < bufferBegin + buffer.Length
    {
      shifts, mark := shifts + 1, bufferEnd;
      assert (shifts - 1 + 1) * (buffer.Length / 2) == (shifts - 1) * (buffer.Length / 2) + buffer.Length / 2;
      bufferBegin := bufferBegin + buffer.Length / 2;
      Refill(bufferEnd);
      if reachEof && buffer.Length >= 2 {
        RefillMarks(|list|, buffer.Length, shifts - 1);
      }
    }

    /** Step an iterator's index; false at the end of the file. */
    method MoveToNext(idx: nat) returns (idx': nat, more: bool)
      requires Valid()
      modifies `bufferBegin, `bufferEnd, `reachEof, `shifts, `mark, buffer
      ensures Valid() && idx' == idx + 1
      ensures more <==> !(idx + 1 >= old(bufferEnd) && old(reachEof))
      ensures idx + 1 < old(bufferEnd) || old(reachEof) ==>
                && bufferBegin == old(bufferBegin) && bufferEnd == old(bufferEnd)
                && reachEof == old(reachEof) && mark == old(mark)
      ensures idx + 1 >= old(bufferEnd) && !old(reachEof) ==>
                && mark == old(bufferEnd) && bufferBegin == old(bufferBegin) + buffer.Length / 2
                && bufferEnd == (if |list| < bufferBegin + buffer.Length then |list| else bufferBegin + buffer.Length)
                && (reachEof <==> |list| < bufferBegin + buffer.Length)
    {
      idx', more := idx + 1, true;
      if idx' >= bufferEnd {
        if reachEof {
          more := false;
        } else {
          Shift();
        }
      }
    }

    /** An entry of the window in the slot of idx. */
    ghost predicate InSlot(idx: nat, a: Access)
      requires buffer.Length >= 1 && bufferEnd <= |list|
      reads this
    {
      exists i :: bufferBegin <= i < bufferEnd && i % buffer.Length == idx % buffer.Length && a == Entry(list[i])
    }

    /** Bound checking, then the entry: inside the window the list's entry, before it underflow,
        behind the end of the list overflow.  Behind a window that is not the last one nothing is
        checked, and the entry that happens to share the slot is read. */
    method Load(idx: nat) returns (a: Access)
      requires Valid()
      ensures bufferBegin <= idx < bufferEnd ==> a == Entry(list[idx])
      ensures idx < bufferBegin ==> a == Underflow
      ensures bufferBegin <= idx && reachEof && bufferEnd <= idx ==> a == Overflow
      ensures bufferBegin <= idx && !reachEof ==> InSlot(idx, a)
    {
      if idx < bufferBegin { return Underflow; }
      if reachEof && idx >= bufferEnd { return Overflow; }
      a := Entry(buffer[idx % buffer.Length]);
      if !reachEof {
        ghost var i := bufferBegin + (idx - bufferBegin) % buffer.Length;
        SameSlot(bufferBegin, idx, buffer.Length);
        assert bufferBegin <= i < bufferEnd && i % buffer.Length == idx % buffer.Length;
      }
    }
  }

  lemma SameSlot(base: nat, idx: nat, b: nat)
    requires base <= idx && b >= 1
    ensures 0 <= (idx - base) % b < b && (base + (idx - base) % b) % b == idx % b
  {
    var q, r := (idx - base) / b, (idx - base) % b;
    assert idx - base == q * b + r;
    var i := base + r;
    var q', r' := i / b, i % b;
    assert i == q' * b + r';
    assert (q + q') * b == q * b + q' * b;
    DivModUnique(idx, b, q + q', r');
  }

  class BranchInstanceIterator {
    const reader: Reader
    var reachEnd: bool
    var index: nat
    var brInst: Access          // the entry last loaded, when valid
    var valid: bool

    /** The iterator is in the window or has just left the list; nothing was skipped. */
    ghost predicate OnTrack()
      reads this, reader, reader.buffer
    {
      var n := |reader.list|;
      && reader.Valid() && reader.buffer.Length >= 2
      && reader.bufferBegin <= reader.mark <= index <= n
      && (valid ==> index < n && brInst == Entry(reader.list[index]))
      && (if reachEnd then reader.reachEof && index == n > reader.mark
          else index < reader.bufferEnd || (reader.reachEof && index == n == reader.mark))
    }

    constructor (rd: Reader, end: bool)
      ensures reader == rd && reachEnd == end && index == 0 && !valid
    {
      reader, reachEnd, index, valid, brInst := rd, end, 0, false, Overflow;
    }

    /** operator++ */
    method PreIncrement()
      requires reader.Valid()
      modifies this, reader`bufferBegin, reader`bufferEnd, reader`reachEof, reader`shifts, reader`mark, reader.buffer
      ensures reader.Valid() && !valid
      ensures old(OnTrack()) && old(index < reader.bufferEnd) ==> OnTrack() && index == old(index) + 1
      ensures old(reader.buffer.Length == 1 && !reader.reachEof && !reachEnd && reader.bufferEnd <= index + 1) ==>
                index == old(index) + 1 && !reader.reachEof && !reachEnd
                && reader.bufferBegin == old(reader.bufferBegin) && reader.bufferEnd == old(reader.bufferEnd)
    {
      valid := false;
      if !reachEnd {
        var i, more := reader.MoveToNext(index);
        index := i;
        reachEnd := !more;
      }
    }

    /** operator++(int).  It hands back the iterator as it is after the step, not as it was before. */
    method PostIncrement() returns (it: BranchInstanceIterator)
      requires reader.Valid()
      modifies this, reader`bufferBegin, reader`bufferEnd, reader`reachEof, reader`shifts, reader`mark, reader.buffer
      ensures reader.Valid() && !valid
      ensures it.reader == reader && it.index == index && it.reachEnd == reachEnd
      ensures !old(reachEnd) ==> it.index == old(index) + 1
    {
      valid := false;
      if !reachEnd {
        var i, more := reader.MoveToNext(index);
        index := i;
        reachEnd := !more;
      }
      it := this;
    }

    /** operator== */
    predicate Equals(rhs: BranchInstanceIterator)
      reads this, rhs
    {
      if reader != rhs.reader then false
      else if !reachEnd && !rhs.reachEnd then index == rhs.index
      else reachEnd && rhs.reachEnd
    }

    /** operator* and operator->: load the entry unless it is already there. */
    method Deref() returns (a: Access)
      requires reader.Valid() && (valid ==> brInst.Entry?)
      modifies `brInst, `valid
      ensures old(OnTrack()) ==> OnTrack()
      ensures old(OnTrack()) && !reachEnd ==> a == if index < |reader.list| then Entry(reader.list[index]) else Overflow
      ensures a.Entry? ==> valid
      ensures !old(valid) && reader.bufferBegin <= index && reader.bufferEnd <= index && reader.reachEof ==>
                a == Overflow && !valid
      ensures !old(valid) && reader.bufferBegin <= index && !reader.reachEof ==> reader.InSlot(index, a)
    {
      if !valid {
        a := reader.Load(index);
        if a.Entry? {
          brInst, valid := a, true;
        }
      } else {
        a := brInst;
      }
    }
  }

  /** The driver loop: it delivers exactly the list, whatever its length and the window's, and stops
      by an exception when the list ends on a refill and by the end iterator otherwise. */
  method Drive(reader: Reader) returns (seen: seq<nat>, stop: Stop)
    requires Start(reader) && reader.buffer.Length >= 2
    modifies reader`bufferBegin, reader`bufferEnd, reader`reachEof, reader`shifts, reader`mark, reader.buffer
    ensures reader.Valid() && seen == reader.list
    ensures stop == if EndsOnRefill(|reader.list|, reader.buffer.Length) then Thrown(Overflow) else AtEnd
  {
    var it := new BranchInstanceIterator(reader, false);
    var end := new BranchInstanceIterator(reader, true);
    seen, stop := [], AtEnd;
    while !it.Equals(end)
      invariant it != end && it.reader == end.reader == reader && end.reachEnd && it.OnTrack() && stop == AtEnd
      invariant seen == reader.list[..it.index]
      decreases |reader.list| - it.index, !it.reachEnd
    {
      var a := it.Deref();
      if !a.Entry? {
        stop := Thrown(a);
        break;
      }
      seen := seen + [a.id];
      it.PreIncrement();
    }
  }

  /** The window as the constructor leaves it. */
  ghost predicate Start(reader: Reader)
    reads reader, reader.buffer
  {
    && reader.Valid() && reader.bufferBegin == reader.mark == 0
    && reader.bufferEnd == (if |reader.list| < reader.buffer.Length then |reader.list| else reader.buffer.Length)
    && (reader.reachEof <==> |reader.list| < reader.buffer.Length)
  }

  /** At most so many turns of the driver loop with a window of one entry: unless the list is empty,
      every turn delivers the first entry again, and no number of turns comes to an end. */
  method DriveOne(reader: Reader, turns: nat) returns (seen: seq<nat>, stop: Stop)
    requires Start(reader) && reader.buffer.Length == 1
    modifies reader`bufferBegin, reader`bufferEnd, reader`reachEof, reader`shifts, reader`mark, reader.buffer
    ensures reader.list != [] ==> stop == Running && seen == seq(turns, _ => reader.list[0])
    ensures reader.list == [] ==> seen == [] && stop == if turns == 0 then Running else Thrown(Overflow)
  {
    var it := new BranchInstanceIterator(reader, false);
    var end := new BranchInstanceIterator(reader, true);
    seen, stop := [], Running;
    var k := 0;
    while k < turns
      invariant 0 <= k <= turns && it != end && it.reader == end.reader == reader && end.reachEnd && reader.Valid()
                && stop == Running
      invariant reader.bufferBegin == 0 && !it.reachEnd && !it.valid && reader.bufferEnd <= it.index + 1
      invariant reader.reachEof <==> reader.list == []
      invariant reader.list != [] ==> seen == seq(k, _ => reader.list[0]) && reader.bufferEnd == 1
      invariant reader.list == [] ==> seen == [] && k == 0
    {
      if it.Equals(end) {
        stop := AtEnd;
        break;
      }
      var a := it.Deref();
      if !a.Entry? {
        stop := Thrown(a);
        break;
      }
      seen := seen + [a.id];
      it.PreIncrement();
      k := k + 1;
    }
  }
}
