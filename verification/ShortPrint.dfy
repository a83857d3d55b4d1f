/** The output side of the shortprint driver: a one-page circular buffer of characters,
    an "active" flag, a missed-interrupt timer and a work item. */
module ShortPrint {
  import opened Basics

  const PAGE_SIZE: nat := 4096
  const SP_MIN_SPACE: nat := PAGE_SIZE / 2

  /** `head` and `tail` are offsets from the start of the buffer; `printed` is the trace of the data port;
      `timer` and `queued` say whether the timer is pending and the work item on the queue. */
  datatype Device = Device(buf: seq<char>, head: nat, tail: nat, active: bool, timer: bool, queued: bool, printed: seq<char>)
  {
    ghost predicate Valid() {
      |buf| == PAGE_SIZE && head < PAGE_SIZE && tail < PAGE_SIZE
    }

    /** Bytes accepted but not yet strobed out. */
    function Len(): nat {
      (head - tail) % PAGE_SIZE
    }

    function Contents(): seq<char>
      requires Valid()
    {
      if tail <= head then buf[tail..head] else buf[tail..] + buf[..head]
    }

    /** Bytes that can still be added; one slot always stays unused. */
    function Free(): nat {
      PAGE_SIZE - 1 - Len()
    }

    /** The next `n` bytes from `head` on may be written: they do not wrap and are not in use. */
    ghost predicate Room(n: nat) {
      0 < n && head + n <= PAGE_SIZE && n <= Free()
    }
  }

  function Incr(p: nat, n: nat): nat {
    if p + n >= PAGE_SIZE then p + n - PAGE_SIZE else p + n
  }

  /** The second half of shortp_out_space: `ahead` is the outcome of its comparison. */
  function SpaceGiven(ahead: bool, head: nat, tail: nat): int {
    if ahead then
      var space := PAGE_SIZE - head;
      if tail == 0 then space - 1 else space
    else
      tail - head - 1
  }

  function Filled(d: Device, data: seq<char>): Device
    requires d.Valid() && d.head + |data| <= PAGE_SIZE
  {
    d.(buf := d.buf[..d.head] + data + d.buf[d.head + |data|..])
  }

  function Advanced(d: Device, n: nat): Device {
    d.(head := Incr(d.head, n))
  }

  function Strobed(d: Device): Device
    requires d.Valid()
  {
    d.(printed := d.printed + [d.buf[d.tail]], tail := Incr(d.tail, 1), timer := true)
  }

  function Started(d: Device): Device {
    if d.active then d else d.(active := true, timer := true, queued := true)
  }

  function Served(d: Device): Device
    requires d.Valid()
  {
    if d.head == d.tail then d.(active := false, timer := false) else Strobed(d)
  }

  predicate WakesWriters(d: Device) {
    (PAGE_SIZE + d.tail - d.head) % PAGE_SIZE > SP_MIN_SPACE
  }

  function Interrupted(d: Device): Device {
    if d.active then d.(queued := true) else d
  }

  /** The timer has fired: it is re-armed while the printer is busy, else an interrupt is faked. */
  function TimedOut(d: Device, busy: bool): Device {
    var d := d.(timer := false);
    if !d.active then d else if busy then d.(timer := true) else Interrupted(d)
  }

  // ---------------------------------------------------------------- facts about the buffer

  /** Unbroken, shortp_out_space is exactly the contiguous free space. */
  lemma SpaceIsContiguousFree(d: Device)
    requires d.Valid()
    ensures SpaceGiven(d.head >= d.tail, d.head, d.tail) ==
            if d.Free() <= PAGE_SIZE - d.head then d.Free() else PAGE_SIZE - d.head
    ensures d.Len() == |d.Contents()|
  {
  }

  /** Broken by any number of strobes between its two reads of the tail, it never overstates it. */
  lemma TornSpaceIsSafe(ahead: bool, d: Device)
    requires d.Valid() && (ahead ==> d.tail <= d.head)
    ensures var space := SpaceGiven(ahead, d.head, d.tail); space > 0 ==> d.Room(space)
  {
  }

  lemma FillKeepsContents(d: Device, data: seq<char>)
    requires d.Valid() && d.head + |data| <= PAGE_SIZE && |data| <= d.Free()
    ensures Filled(d, data).Valid() && Filled(d, data).Contents() == d.Contents()
    ensures Filled(d, data).buf[d.head..d.head + |data|] == data
  {
    var d' := Filled(d, data);
    assert d'.buf[..d.head] == d.buf[..d.head];
    assert d'.buf[d.head + |data|..] == d.buf[d.head + |data|..];
    if d.tail <= d.head {
      assert d'.buf[d.tail..d.head] == d'.buf[..d.head][d.tail..] == d.buf[d.tail..d.head];
    } else {
      var skip := d.tail - (d.head + |data|);
      assert d'.buf[d.tail..] == d'.buf[d.head + |data|..][skip..];
      assert d.buf[d.tail..] == d.buf[d.head + |data|..][skip..];
    }
  }

  lemma AdvanceAppends(d: Device, n: nat)
    requires d.Valid() && d.Room(n)
    ensures Advanced(d, n).Valid() && Advanced(d, n).Len() == d.Len() + n
    ensures Advanced(d, n).Contents() == d.Contents() + d.buf[d.head..d.head + n]
  {
    var d' := Advanced(d, n);
    if d.tail <= d.head {
      if d.head + n < PAGE_SIZE {
        assert d.buf[d.tail..d.head + n] == d.buf[d.tail..d.head] + d.buf[d.head..d.head + n];
      } else {
        assert d'.head == 0;
        assert d.buf[d.tail..] == d.buf[d.tail..d.head] + d.buf[d.head..];
        assert d.buf[d.head..d.head + n] == d.buf[d.head..];
      }
    } else {
      assert d.buf[..d.head + n] == d.buf[..d.head] + d.buf[d.head..d.head + n];
    }
  }

  lemma StrobeTakesFirst(d: Device)
    requires d.Valid() && d.head != d.tail
    ensures d.Contents() != [] && Strobed(d).Valid() && Strobed(d).Len() == d.Len() - 1
    ensures Strobed(d).printed == d.printed + [d.Contents()[0]] && Strobed(d).Contents() == d.Contents()[1..]
  {
    var d' := Strobed(d);
    if d.tail < d.head {
      assert d'.Contents() == d.buf[d.tail + 1..d.head];
    } else {
      SplitsFirst(d.buf[d.tail..], d.buf[..d.head]);
      assert d.buf[d.tail..][1..] == d.buf[d.tail + 1..];
      if d.tail + 1 == PAGE_SIZE {
        assert d.buf[d.tail + 1..] == [];
      }
    }
  }

  lemma SplitsFirst<T>(a: seq<T>, b: seq<T>)
    requires a != []
    ensures (a + b)[0] == a[0] && (a + b)[1..] == a[1..] + b
  {
  }

  /** Starting from full, the wake-up test fires on every non-empty length below half a page, so
      strictly before the buffer drains; on the empty buffer itself it never fires. */
  lemma WakeRange(d: Device)
    requires d.Valid()
    ensures WakesWriters(d) <==> 0 < d.Len() < PAGE_SIZE - SP_MIN_SPACE
  {
  }

  /** What a strobe or a deactivation does to the buffer. */
  lemma ServedFacts(d: Device)
    requires d.Valid()
    ensures Served(d).Valid() && Served(d).printed + Served(d).Contents() == d.printed + d.Contents()
    ensures Served(d).head == d.head && Served(d).Len() == if d.head == d.tail then 0 else d.Len() - 1
  {
    if d.head != d.tail {
      StrobeTakesFirst(d);
      var c := d.Contents();
      assert (d.printed + [c[0]]) + c[1..] == d.printed + c;
    }
  }

  /** The same in terms of the contents, with the writers it wakes. */
  lemma WorkFacts(d: Device)
    requires d.Valid()
    ensures Served(d).Valid() && Served(d).printed + Served(d).Contents() == d.printed + d.Contents()
    ensures d.Contents() == [] <==> d.head == d.tail
    ensures |Served(d).Contents()| == if d.head == d.tail then 0 else |d.Contents()| - 1
    ensures WakesWriters(Served(d)) <==> 0 < |Served(d).Contents()| < PAGE_SIZE - SP_MIN_SPACE
  {
    ServedFacts(d);
    SpaceIsContiguousFree(d);
    SpaceIsContiguousFree(Served(d));
    WakeRange(Served(d));
  }

  lemma StreamAdvances(d: Device, n: nat)
    requires d.Valid() && d.Room(n)
    ensures Advanced(d, n).Valid()
    ensures Advanced(d, n).printed + Advanced(d, n).Contents() == (d.printed + d.Contents()) + d.buf[d.head..d.head + n]
  {
    AdvanceAppends(d, n);
    Regroups(d.printed, d.Contents(), d.buf[d.head..d.head + n]);
  }

  // ---------------------------------------------------------------- the driver's own state

  class Printer {
    const outBuffer: array<char>
    var outHead: nat
    var outTail: nat
    var outputActive: bool
    var timerPending: bool
    var workQueued: bool
    var port: seq<char>

    ghost predicate Valid()
      reads this
    {
      outBuffer.Length == PAGE_SIZE && outHead < PAGE_SIZE && outTail < PAGE_SIZE
    }

    function View(): Device
      reads this, outBuffer
    {
      Device(outBuffer[..], outHead, outTail, outputActive, timerPending, workQueued, port)
    }

    /** All bytes taken so far: those printed, then those buffered. */
    ghost function Stream(): seq<char>
      requires Valid()
      reads this, outBuffer
    {
      port + View().Contents()
    }

    constructor ()
      ensures Valid() && View().Contents() == [] && View().printed == []
      ensures !outputActive && !timerPending && !workQueued
    {
      outBuffer := new char[PAGE_SIZE];
      outHead, outTail, outputActive, timerPending, workQueued, port := 0, 0, false, false, false, [];
    }

    /** Run without interruption, it reports the contiguous free space. */
    method OutSpace() returns (space: int)
      requires Valid()
      ensures space == if View().Free() <= PAGE_SIZE - outHead then View().Free() else PAGE_SIZE - outHead
    {
      SpaceIsContiguousFree(View());
      if outHead >= outTail {
        space := PAGE_SIZE - outHead;
        if outTail == 0 {
          space := space - 1;
        }
      } else {
        space := (outTail - outHead) - 1;
      }
    }

    /** copy_from_user into the space at the head, one byte at a time. */
    method CopyIn(data: seq<char>)
      requires Valid() && outHead + |data| <= PAGE_SIZE
      modifies outBuffer
      ensures View() == Filled(old(View()), data)
    {
      var i := 0;
      while i < |data|
        invariant 0 <= i <= |data|
        invariant forall k :: 0 <= k < PAGE_SIZE ==>
          outBuffer[k] == if outHead <= k < outHead + i then data[k - outHead] else old(outBuffer[k])
      {
        outBuffer[outHead + i] := data[i];
        i := i + 1;
      }
      assert outBuffer[..] == Filled(old(View()), data).buf;
    }

    method AdvanceHead(n: nat)
      requires Valid() && n <= PAGE_SIZE
      modifies this`outHead
      ensures Valid() && View() == Advanced(old(View()), n)
      ensures old(View().Room(n)) ==> Stream() == old(Stream()) + outBuffer[old(outHead)..old(outHead) + n]
    {
      if View().Room(n) {
        StreamAdvances(View(), n);
      }
      var p := outHead + n;
      if p >= PAGE_SIZE {
        p := p - PAGE_SIZE;
      }
      outHead := p;
    }

    method StartOutput()
      requires Valid()
      modifies this
      ensures Valid() && View() == Started(old(View())) && Stream() == old(Stream())
      ensures outputActive && timerPending == (old(timerPending) || !old(outputActive)) && workQueued == (old(workQueued) || !old(outputActive))
    {
      if outputActive {
        return;
      }
      outputActive := true;
      timerPending := true;
      workQueued := true;
    }

    method DoWrite()
      requires Valid()
      modifies this
      ensures Valid() && View() == Strobed(old(View())) && timerPending
      ensures old(outHead != outTail) ==> Stream() == old(Stream()) && |View().Contents()| == |old(View().Contents())| - 1
    {
      if outHead != outTail {
        WorkFacts(View());
      }
      timerPending := true;
      port := port + [outBuffer[outTail]];
      outTail := if outTail + 1 >= PAGE_SIZE then outTail + 1 - PAGE_SIZE else outTail + 1;
    }

    /** The locked section of shortp_do_work; `wake` tells whether it wakes the writers. */
    method DoWork() returns (wake: bool)
      requires Valid()
      modifies this
      ensures Valid() && View() == Served(old(View())) && Stream() == old(Stream())
      ensures wake <==> 0 < |View().Contents()| < PAGE_SIZE - SP_MIN_SPACE
      ensures outputActive ==> timerPending && old(outputActive) && |View().Contents()| == |old(View().Contents())| - 1
      ensures old(View().Contents()) == [] ==> !outputActive && !timerPending
      ensures old(View().Contents()) != [] ==> outputActive == old(outputActive)
    {
      ghost var d := View();
      WorkFacts(d);
      ServeOne();
      wake := MuchSpace();
      assert View() == Served(d);
    }

    /** The test on which the writers are woken. */
    method MuchSpace() returns (wake: bool)
      requires Valid()
      ensures wake == WakesWriters(View())
    {
      wake := (PAGE_SIZE + outTail - outHead) % PAGE_SIZE > SP_MIN_SPACE;
    }

    /** Deactivates on an empty buffer, else strobes a byte. */
    method ServeOne()
      requires Valid()
      modifies this
      ensures Valid() && View() == Served(old(View()))
    {
      if outHead == outTail {
        outputActive := false;
        timerPending := false;
      } else {
        DoWrite();
      }
    }

    method Interrupt()
      requires Valid()
      modifies this
      ensures Valid() && View() == Interrupted(old(View())) && Stream() == old(Stream())
      ensures outputActive == old(outputActive) && timerPending == old(timerPending) && workQueued == (old(workQueued) || outputActive)
    {
      if !outputActive {
        return;
      }
      workQueued := true;
    }

    method Timeout(busy: bool)
      requires Valid() && timerPending
      modifies this
      ensures Valid() && View() == TimedOut(old(View()), busy) && Stream() == old(Stream())
      ensures outputActive == old(outputActive)
      ensures timerPending == (outputActive && busy) && workQueued == (old(workQueued) || (outputActive && !busy))
    {
      timerPending := false;
      if !outputActive {
        return;
      }
      if busy {
        timerPending := true;
        return;
      }
      Interrupt();
    }

    /** The bottom half until it deactivates: everything taken is printed. */
    method Drain()
      requires Valid() && (View().Contents() != [] ==> outputActive)
      modifies this
      ensures Valid() && port == old(Stream()) && View().Contents() == [] && !outputActive
    {
      while outputActive
        invariant Valid() && Stream() == old(Stream()) && (View().Contents() != [] ==> outputActive)
        decreases |View().Contents()|, outputActive
      {
        var _ := DoWork();
      }
    }

    /** The writer's loop, with the bottom half running when the buffer is full, and the release that waits for the
        printer: the printer gets all earlier bytes and then the data, in order. */
    method Print(data: seq<char>)
      requires Valid() && (View().Contents() != [] ==> outputActive)
      modifies this, outBuffer
      ensures Valid() && port == old(Stream()) + data && View().Contents() == [] && !outputActive
    {
      var written := 0;
      while written < |data|
        invariant 0 <= written <= |data| && Valid() && (View().Contents() != [] ==> outputActive)
        invariant Stream() == old(Stream()) + data[..written]
        decreases |data| - written, |View().Contents()|
      {
        var n := Round(data[written..]);
        PrefixGrows(data, written, n);
        Regroups(old(Stream()), data[..written], data[written..][..n]);
        written := written + n;
      }
      assert data[..written] == data;
      Drain();
    }

    /** One round of the writer's loop, or of the bottom half if there is no space. */
    method Round(rest: seq<char>) returns (n: nat)
      requires Valid() && rest != [] && (View().Contents() != [] ==> outputActive)
      modifies this, outBuffer
      ensures Valid() && n <= |rest| && Stream() == old(Stream()) + rest[..n] && (View().Contents() != [] ==> outputActive)
      ensures n == 0 ==> |View().Contents()| < |old(View().Contents())|
      ensures old(View().Free()) > 0 ==> n == Least(|rest|, old(View().Free()), PAGE_SIZE - old(outHead))
    {
      var space := OutSpace();
      SpaceIsContiguousFree(View());
      if space <= 0 {
        var _ := DoWork();
        n := 0;
      } else {
        n := if space > |rest| then |rest| else space;
        PutChunk(rest[..n]);
      }
    }

    method PutChunk(chunk: seq<char>)
      requires Valid() && View().Room(|chunk|)
      modifies this, outBuffer
      ensures Valid() && Stream() == old(Stream()) + chunk && outputActive
    {
      FillKeepsContents(View(), chunk);
      CopyIn(chunk);
      AdvanceHead(|chunk|);
      StartOutput();
    }
  }
}
