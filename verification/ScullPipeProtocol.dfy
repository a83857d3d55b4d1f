/** Any number of processes reading and writing one scullpipe, step by step, and the openings that keep its buffer. */
module ScullPipeProtocol {
  import opened Basics
  import opened Totals
  import opened ScullPipe

  datatype Op = ReadOp(count: nat) | WriteOp(data: seq<char>)

  /** Where a call of read or write stands. */
  datatype Pc =
    | Start                    // about to take the mutex
    | Testing                  // holds it, about to test the pipe
    | Refusing                 // nothing to do: about to release it
    | Refused                  // released it, about to look at O_NONBLOCK
    | Queued(woken: bool)      // on the wait queue, about to test again without the mutex
    | Sleeping(woken: bool)
    | Space(result: int)       // scull_getwritespace has returned this
    | Copying                  // holds the mutex, about to copy
    | Faulted                  // the copy failed: about to release it
    | Moved(n: nat)            // moved its pointer: about to release it
    | Waking(n: nat)           // released it, about to wake the other side
    | Done(ret: int)

  datatype Proc = Proc(op: Op, nonblock: bool, pc: Pc)

  datatype State = State(pipe: Pipe, mutex: Option<int>, procs: map<int, Proc>, delivered: seq<char>, accepted: seq<char>)

  /** `Go` is the next step of a call; `copied` matters when it is the copy. */
  datatype Event = Call(pid: int, op: Op, nonblock: bool) | Go(pid: int, copied: nat) | Signal(pid: int)

  predicate Runnable(s: State, pc: Pc) {
    match pc
    case Start => s.mutex.None?
    case Sleeping(woken) => woken
    case Done(_) => false
    case _ => true
  }

  predicate Enabled(s: State, e: Event) {
    match e
    case Call(pid, _, _) => pid !in s.procs || s.procs[pid].pc.Done?
    case Go(pid, _) => pid in s.procs && Runnable(s, s.procs[pid].pc)
    case Signal(pid) => pid in s.procs && (s.procs[pid].pc.Start? || s.procs[pid].pc.Queued? || s.procs[pid].pc.Sleeping?)
  }

  function At(s: State, pid: int, pc: Pc): State
    requires pid in s.procs
  {
    s.(procs := s.procs[pid := s.procs[pid].(pc := pc)])
  }

  /** The pipe has something for this side. */
  predicate Ready(p: Pipe, op: Op)
    requires p.Valid()
  {
    if op.ReadOp? then p.rp != p.wp else p.SpaceFree() != 0
  }

  /** A call gives up: read returns at once, write gets the error from scull_getwritespace. */
  function Fails(s: State, pid: int, error: int): State
    requires pid in s.procs
  {
    At(s, pid, if s.procs[pid].op.ReadOp? then Done(error) else Space(error))
  }

  function Step(s: State, e: Event): State
    requires s.pipe.Valid() && Enabled(s, e)
  {
    match e
    case Call(pid, op, nonblock) => s.(procs := s.procs[pid := Proc(op, nonblock, Start)])
    case Go(pid, copied) => Advance(s, pid, copied)
    case Signal(pid) => Fails(s, pid, -ERESTARTSYS)
  }

  function Advance(s: State, pid: int, copied: nat): State
    requires s.pipe.Valid() && Enabled(s, Go(pid, copied))
  {
    var op := s.procs[pid].op;
    match s.procs[pid].pc
    case Start => At(s, pid, Testing).(mutex := Some(pid))
    case Testing => At(s, pid, if !Ready(s.pipe, op) then Refusing else if op.ReadOp? then Copying else Space(0))
    case Refusing => At(s, pid, Refused).(mutex := None)
    case Refused => if s.procs[pid].nonblock then Fails(s, pid, -EAGAIN) else At(s, pid, Queued(false))
    case Queued(woken) => At(s, pid, if Ready(s.pipe, op) then Start else Sleeping(woken))
    case Sleeping(_) => At(s, pid, if op.ReadOp? then Queued(false) else Start)
    case Space(result) => At(s, pid, if result != 0 then Done(result) else Copying)
    case Copying => if op.ReadOp? then DoRead(s, pid, op.count, copied) else DoWrite(s, pid, op.data, copied)
    case Faulted => At(s, pid, Done(-EFAULT)).(mutex := None)
    case Moved(n) => At(s, pid, Waking(n)).(mutex := None)
    case Waking(n) => WakeUp(At(s, pid, Done(n)), !op.ReadOp?)
    case Done(_) => s
  }

  function DoRead(s: State, pid: int, count: nat, copied: nat): State
    requires s.pipe.Valid() && pid in s.procs
  {
    var n := ReadSize(s.pipe, count);
    if copied < n then At(s, pid, Faulted)
    else At(s, pid, Moved(n)).(pipe := AfterRead(s.pipe, n), delivered := s.delivered + s.pipe.buf[s.pipe.rp..s.pipe.rp + n])
  }

  function DoWrite(s: State, pid: int, data: seq<char>, copied: nat): State
    requires s.pipe.Valid() && pid in s.procs
  {
    SpaceIsCapacityMinusLength(s.pipe);
    WriteFits(s.pipe, |data|);
    var n := WriteSize(s.pipe, |data|);
    var stored := Stored(s.pipe, Landed(data[..n], copied));
    StoreHidden(s.pipe, Landed(data[..n], copied));
    if copied < n then At(s, pid, Faulted).(pipe := stored)
    else At(s, pid, Moved(n)).(pipe := AfterWrite(stored, n), accepted := s.accepted + data[..n])
  }

  function Woken(p: Proc, readers: bool): Proc {
    if p.op.ReadOp? != readers then p
    else match p.pc
      case Queued(_) => p.(pc := Queued(true))
      case Sleeping(_) => p.(pc := Sleeping(true))
      case _ => p
  }

  /** wake_up_interruptible on the readers' or the writers' queue. */
  function WakeUp(s: State, readers: bool): State {
    s.(procs := map pid | pid in s.procs :: Woken(s.procs[pid], readers))
  }

  // ---------------------------------------------------------------- invariant

  /** What was delivered, followed by what is in the pipe, is what was accepted. */
  ghost predicate Fifo(s: State)
    requires s.pipe.Valid()
  {
    s.delivered + s.pipe.Contents() == s.accepted
  }

  /** Between taking the mutex and releasing it; scull_getwritespace keeps it exactly when it succeeds. */
  predicate Holds(pc: Pc) {
    pc.Testing? || pc.Refusing? || pc == Space(0) || pc.Copying? || pc.Faulted? || pc.Moved?
  }

  ghost predicate MutexExact(s: State) {
    && (s.mutex.Some? ==> s.mutex.value in s.procs)
    && forall pid :: pid in s.procs ==> (Holds(s.procs[pid].pc) <==> s.mutex == Some(pid))
  }

  /** A call that has passed the test finds the pipe as it was. */
  ghost predicate CopiesReady(s: State)
    requires s.pipe.Valid()
  {
    forall pid :: pid in s.procs && (s.procs[pid].pc.Copying? || s.procs[pid].pc == Space(0)) ==> Ready(s.pipe, s.procs[pid].op)
  }

  /** Somebody of the one side has moved its pointer and has yet to wake the other. */
  ghost predicate WakePending(s: State, readers: bool) {
    exists pid :: pid in s.procs && s.procs[pid].op.ReadOp? == !readers && (s.procs[pid].pc.Moved? || s.procs[pid].pc.Waking?)
  }

  /** A call that sleeps and has not been woken has nothing to do, or somebody is about to wake it. */
  ghost predicate NoneStranded(s: State)
    requires s.pipe.Valid()
  {
    forall pid :: pid in s.procs && s.procs[pid].pc == Sleeping(false) ==>
      !Ready(s.pipe, s.procs[pid].op) || WakePending(s, s.procs[pid].op.ReadOp?)
  }

  ghost predicate Inv(s: State) {
    s.pipe.Valid() && |s.pipe.Contents()| < |s.pipe.buf| && Fifo(s) && MutexExact(s) && CopiesReady(s) && NoneStranded(s)
  }

  lemma ReadKeepsFifo(s: State, pid: int, count: nat, copied: nat)
    requires s.pipe.Valid() && Fifo(s) && s.pipe.rp != s.pipe.wp && pid in s.procs
    ensures var s' := DoRead(s, pid, count, copied);
      && s'.pipe.Valid() && |s'.pipe.buf| == |s.pipe.buf| && Fifo(s')
      && (s'.procs[pid].pc == Faulted || s'.procs[pid].pc == Moved(|s'.delivered| - |s.delivered|))
  {
    ReadMoves(s.pipe, count, s.delivered);
    var n := ReadSize(s.pipe, count);
    var s' := DoRead(s, pid, count, copied);
    if copied >= n {
      assert s'.pipe == AfterRead(s.pipe, n) && s'.delivered == s.delivered + s.pipe.buf[s.pipe.rp..s.pipe.rp + n];
    }
  }

  /** What is read goes from the front of the pipe to the end of what has been delivered. */
  lemma ReadMoves(p: Pipe, count: nat, delivered: seq<char>)
    requires p.Valid() && p.rp != p.wp
    ensures var n := ReadSize(p, count);
      p.rp + n <= |p.buf| && AfterRead(p, n).Valid()
      && (delivered + p.buf[p.rp..p.rp + n]) + AfterRead(p, n).Contents() == delivered + p.Contents()
  {
    ReadSplits(p, count);
    var n := ReadSize(p, count);
    Regroups(delivered, p.buf[p.rp..p.rp + n], AfterRead(p, n).Contents());
  }

  lemma WriteKeepsFifo(s: State, pid: int, data: seq<char>, copied: nat)
    requires s.pipe.Valid() && Fifo(s) && pid in s.procs
    ensures var s' := DoWrite(s, pid, data, copied);
      && s'.pipe.Valid() && |s'.pipe.buf| == |s.pipe.buf| && Fifo(s')
      && (s'.procs[pid].pc == Faulted || s'.procs[pid].pc == Moved(|s'.accepted| - |s.accepted|))
  {
    SpaceIsCapacityMinusLength(s.pipe);
    WriteFits(s.pipe, |data|);
    var n := WriteSize(s.pipe, |data|);
    if copied < n {
      StoreHidden(s.pipe, Landed(data[..n], copied));
    } else {
      WriteAppends(s.pipe, data[..n]);
      Regroups(s.delivered, s.pipe.Contents(), data[..n]);
    }
  }

  /** A read that gets its bytes across delivers the oldest ones: as many as were asked for, are there, and lie
      before the end of the buffer. */
  lemma ReadDelivers(s: State, pid: int, count: nat, copied: nat)
    requires s.pipe.Valid() && s.pipe.rp != s.pipe.wp && pid in s.procs
    ensures var n := Least(count, |s.pipe.Contents()|, |s.pipe.buf| - s.pipe.rp); var s' := DoRead(s, pid, count, copied);
      if copied < n then s'.delivered == s.delivered && s'.procs[pid].pc == Faulted
      else s'.delivered == s.delivered + s.pipe.Contents()[..n] && s'.procs[pid].pc == Moved(n)
  {
    ReadAmount(s.pipe, count);
    ReadSplits(s.pipe, count);
  }

  /** A write that gets its bytes across has a prefix of its data accepted: as much as was offered, fits, and lies
      before the end of the buffer. */
  lemma WriteAccepts(s: State, pid: int, data: seq<char>, copied: nat)
    requires s.pipe.Valid() && pid in s.procs
    ensures |s.pipe.buf| - 1 - |s.pipe.Contents()| >= 0
    ensures var n := Least(|data|, |s.pipe.buf| - 1 - |s.pipe.Contents()|, |s.pipe.buf| - s.pipe.wp); var s' := DoWrite(s, pid, data, copied);
      if copied < n then s'.accepted == s.accepted && s'.procs[pid].pc == Faulted
      else s'.accepted == s.accepted + data[..n] && s'.procs[pid].pc == Moved(n)
  {
    WriteAmount(s.pipe, |data|);
  }

  lemma Bounded(p: Pipe)
    requires p.Valid()
    ensures |p.Contents()| < |p.buf|
  {
  }

  /** A step leaves every other call where it stands, except that it may wake it. */
  lemma OthersStay(s: State, e: Event, pid: int)
    requires s.pipe.Valid() && Enabled(s, e) && pid in s.procs && pid != e.pid
    ensures pid in Step(s, e).procs
    ensures var p, p' := s.procs[pid], Step(s, e).procs[pid];
      || p' == p
      || (e.Go? && s.procs[e.pid].pc.Waking? && p' == Woken(p, !s.procs[e.pid].op.ReadOp?))
  {
  }

  /** Nobody else joins, and the calling process goes on with its own call. */
  lemma OnlyThese(s: State, e: Event, pid: int)
    requires s.pipe.Valid() && Enabled(s, e) && pid in Step(s, e).procs
    ensures pid in s.procs || pid == e.pid
    ensures !e.Call? ==> e.pid in Step(s, e).procs && Step(s, e).procs[e.pid].op == s.procs[e.pid].op
  {
  }

  /** Where the pipe's pointers change: in a copy that succeeds, with the mutex held. */
  lemma PointersMove(s: State, e: Event)
    requires s.pipe.Valid() && Enabled(s, e) && Step(s, e).pipe.Valid()
    ensures !(e.Go? && s.procs[e.pid].pc.Copying?) ==> Step(s, e).pipe == s.pipe
    ensures e.Go? && s.procs[e.pid].pc.Copying? && !Step(s, e).procs[e.pid].pc.Moved? ==>
      forall op :: Ready(Step(s, e).pipe, op) == Ready(s.pipe, op)
  {
    if e.Go? && s.procs[e.pid].pc.Copying? && s.procs[e.pid].op.WriteOp? {
      WriteFits(s.pipe, |s.procs[e.pid].op.data|);
    }
  }

  lemma MutexKept(s: State, e: Event)
    requires s.pipe.Valid() && MutexExact(s) && Enabled(s, e)
    ensures MutexExact(Step(s, e))
  {
    var s' := Step(s, e);
    forall pid | pid in s'.procs
      ensures Holds(s'.procs[pid].pc) <==> s'.mutex == Some(pid)
    {
      OnlyThese(s, e, pid);
      if pid != e.pid {
        OthersStay(s, e, pid);
      }
    }
    if s.mutex.Some? && s.mutex.value != e.pid {
      OthersStay(s, e, s.mutex.value);
    }
  }

  lemma CopiesKept(s: State, e: Event)
    requires s.pipe.Valid() && MutexExact(s) && CopiesReady(s) && Enabled(s, e) && Step(s, e).pipe.Valid()
    ensures CopiesReady(Step(s, e))
  {
    var s' := Step(s, e);
    PointersMove(s, e);
    forall pid | pid in s'.procs && (s'.procs[pid].pc.Copying? || s'.procs[pid].pc == Space(0))
      ensures Ready(s'.pipe, s'.procs[pid].op)
    {
      OnlyThese(s, e, pid);
      if pid != e.pid {
        OthersStay(s, e, pid);
        assert Holds(s.procs[pid].pc);
      }
    }
  }

  lemma FifoKept(s: State, e: Event)
    requires s.pipe.Valid() && Fifo(s) && CopiesReady(s) && Enabled(s, e)
    ensures Step(s, e).pipe.Valid() && Fifo(Step(s, e))
  {
    if e.Go? && s.procs[e.pid].pc.Copying? {
      if s.procs[e.pid].op.ReadOp? {
        ReadKeepsFifo(s, e.pid, s.procs[e.pid].op.count, e.copied);
      } else {
        WriteKeepsFifo(s, e.pid, s.procs[e.pid].op.data, e.copied);
      }
    }
  }

  /** A pending wake-up stays pending until it wakes everybody on its queue. */
  lemma PendingStays(s: State, e: Event, readers: bool)
    requires s.pipe.Valid() && Enabled(s, e) && WakePending(s, readers)
    ensures WakePending(Step(s, e), readers) || (e.Go? && s.procs[e.pid].pc.Waking? && s.procs[e.pid].op.ReadOp? == !readers)
  {
    var pid :| pid in s.procs && s.procs[pid].op.ReadOp? == !readers && (s.procs[pid].pc.Moved? || s.procs[pid].pc.Waking?);
    if pid != e.pid {
      OthersStay(s, e, pid);
      assert Step(s, e).procs[pid] == s.procs[pid];
    } else if s.procs[pid].pc.Moved? {
      assert Step(s, e).procs[pid].pc.Waking?;
    }
  }

  /** The pipe turns ready for one side only by a transfer of the other, which is then to wake it. */
  lemma ReadyMeansPending(s: State, e: Event, op: Op)
    requires s.pipe.Valid() && CopiesReady(s) && Enabled(s, e) && Step(s, e).pipe.Valid()
    requires !Ready(s.pipe, op) && Ready(Step(s, e).pipe, op)
    ensures WakePending(Step(s, e), op.ReadOp?)
  {
    PointersMove(s, e);
    assert e.Go? && s.procs[e.pid].pc.Copying? && Step(s, e).procs[e.pid].pc.Moved?;
    assert Ready(s.pipe, s.procs[e.pid].op);
    assert s.procs[e.pid].op.ReadOp? == !op.ReadOp?;
    assert Step(s, e).procs[e.pid].op == s.procs[e.pid].op;
  }

  lemma StrandedKept(s: State, e: Event)
    requires s.pipe.Valid() && CopiesReady(s) && NoneStranded(s) && Enabled(s, e) && Step(s, e).pipe.Valid()
    ensures NoneStranded(Step(s, e))
  {
    var s' := Step(s, e);
    forall pid | pid in s'.procs && s'.procs[pid].pc == Sleeping(false) && Ready(s'.pipe, s'.procs[pid].op)
      ensures WakePending(s', s'.procs[pid].op.ReadOp?)
    {
      OnlyThese(s, e, pid);
      if pid == e.pid {
        PointersMove(s, e);
        assert false;
      }
      OthersStay(s, e, pid);
      assert s.procs[pid] == s'.procs[pid];
      if Ready(s.pipe, s.procs[pid].op) {
        PendingStays(s, e, s.procs[pid].op.ReadOp?);
      } else {
        ReadyMeansPending(s, e, s.procs[pid].op);
      }
    }
  }

  lemma StepKeepsInv(s: State, e: Event)
    requires Inv(s) && Enabled(s, e)
    ensures Inv(Step(s, e))
  {
    FifoKept(s, e);
    MutexKept(s, e);
    CopiesKept(s, e);
    StrandedKept(s, e);
    Bounded(Step(s, e).pipe);
  }

  ghost predicate Run(ss: seq<State>, es: seq<Event>) {
    && |ss| == |es| + 1
    && ss[0].pipe.Valid() && ss[0].pipe.rp == ss[0].pipe.wp && ss[0].mutex.None? && ss[0].procs == map[]
    && ss[0].delivered == ss[0].accepted == []
    && forall i :: 0 <= i < |es| ==> Goes(ss[i], es[i], ss[i + 1])
  }

  /** From a broken pipe anything could follow. */
  ghost predicate Goes(s: State, e: Event, s': State) {
    Enabled(s, e) && (s.pipe.Valid() ==> s' == Step(s, e))
  }

  /** Between opens, the pipe is a FIFO of capacity buffersize - 1 in every interleaving. */
  lemma {:induction false} EveryRunIsFifo(ss: seq<State>, es: seq<Event>, i: nat)
    requires Run(ss, es) && i < |ss|
    ensures Inv(ss[i])
    decreases i
  {
    if i > 0 {
      EveryRunIsFifo(ss, es, i - 1);
      assert Goes(ss[i - 1], es[i - 1], ss[i]);
      StepKeepsInv(ss[i - 1], es[i - 1]);
    }
  }

  /** A call never returns while it holds the mutex, whichever way it returns, and scull_getwritespace
      returns with it exactly when it reports success. */
  lemma NoReturnWithMutex(ss: seq<State>, es: seq<Event>, i: nat, pid: int)
    requires Run(ss, es) && i < |ss| && pid in ss[i].procs
    ensures ss[i].procs[pid].pc.Done? ==> ss[i].mutex != Some(pid)
    ensures ss[i].procs[pid].pc.Space? ==> (ss[i].mutex == Some(pid) <==> ss[i].procs[pid].pc.result == 0)
  {
    EveryRunIsFifo(ss, es, i);
  }

  /** No sleeper is stranded: one that has not been woken finds the pipe empty, or full, or a wake-up under way. */
  lemma SleepersAreServed(ss: seq<State>, es: seq<Event>, i: nat, pid: int)
    requires Run(ss, es) && i < |ss| && pid in ss[i].procs && ss[i].procs[pid].pc == Sleeping(false)
    ensures ss[i].procs[pid].op.ReadOp? ==> ss[i].pipe.Valid() && (ss[i].pipe.Contents() == [] || WakePending(ss[i], true))
    ensures ss[i].procs[pid].op.WriteOp? ==>
      ss[i].pipe.Valid() && (|ss[i].pipe.Contents()| == |ss[i].pipe.buf| - 1 || WakePending(ss[i], false))
  {
    EveryRunIsFifo(ss, es, i);
    SpaceIsCapacityMinusLength(ss[i].pipe);
  }

  /** A call with O_NONBLOCK never waits, and no other call is sent away for want of data or space. */
  lemma {:induction false} OnlyOthersWait(ss: seq<State>, es: seq<Event>, n: nat, pid: int)
    requires Run(ss, es) && n < |ss| && pid in ss[n].procs
    ensures ss[n].procs[pid].nonblock ==> !ss[n].procs[pid].pc.Queued? && !ss[n].procs[pid].pc.Sleeping?
    ensures !ss[n].procs[pid].nonblock ==> ss[n].procs[pid].pc != Done(-EAGAIN) && ss[n].procs[pid].pc != Space(-EAGAIN)
    decreases n
  {
    if n > 0 {
      EveryRunIsFifo(ss, es, n - 1);
      assert Goes(ss[n - 1], es[n - 1], ss[n]);
      OnlyThese(ss[n - 1], es[n - 1], pid);
      if pid in ss[n - 1].procs {
        OnlyOthersWait(ss, es, n - 1, pid);
      }
      if pid != es[n - 1].pid {
        OthersStay(ss[n - 1], es[n - 1], pid);
      }
    }
  }

  /** Event `m` was the copy of the call of `pid` that stands at `n`, and it moved `r` bytes. */
  ghost predicate CopiedAt(ss: seq<State>, es: seq<Event>, pid: int, m: int, n: int, r: int) {
    && 0 <= m < n <= |es| < |ss| && es[m].Go? && es[m].pid == pid && pid in ss[m].procs && ss[m].procs[pid].pc.Copying?
    && |ss[m + 1].delivered| - |ss[m].delivered| + |ss[m + 1].accepted| - |ss[m].accepted| == r
    && forall j :: m < j < n ==> !(es[j].Call? && es[j].pid == pid)
  }

  /** How much a call is about to return, or has returned. */
  predicate Reports(pc: Pc, r: nat) {
    pc == Moved(r) || pc == Waking(r) || pc == Done(r)
  }

  lemma CopyReports(s: State, pid: int, copied: nat, r: nat)
    requires Inv(s) && Enabled(s, Go(pid, copied)) && s.procs[pid].pc.Copying? && Reports(Step(s, Go(pid, copied)).procs[pid].pc, r)
    ensures var s' := Step(s, Go(pid, copied)); |s'.delivered| - |s.delivered| + |s'.accepted| - |s.accepted| == r
  {
    if s.procs[pid].op.ReadOp? {
      ReadKeepsFifo(s, pid, s.procs[pid].op.count, copied);
    } else {
      WriteKeepsFifo(s, pid, s.procs[pid].op.data, copied);
    }
  }

  lemma ReportStays(s: State, e: Event, pid: int, r: nat)
    requires s.pipe.Valid() && Enabled(s, e) && pid in Step(s, e).procs && Reports(Step(s, e).procs[pid].pc, r)
    requires pid in s.procs && s.procs[pid].pc.Space? ==> s.procs[pid].pc.result <= 0
    ensures pid in s.procs && !(e.Call? && e.pid == pid)
    ensures Reports(s.procs[pid].pc, r) || (e.Go? && e.pid == pid && s.procs[pid].pc.Copying?)
  {
    OnlyThese(s, e, pid);
    if pid != e.pid {
      OthersStay(s, e, pid);
    }
  }

  /** scull_getwritespace reports success or an error, never a number of bytes. */
  lemma {:induction false} SpaceFails(ss: seq<State>, es: seq<Event>, n: nat, pid: int)
    requires Run(ss, es) && n < |ss| && pid in ss[n].procs
    ensures ss[n].procs[pid].pc.Space? ==> ss[n].procs[pid].pc.result <= 0
    decreases n
  {
    if n > 0 {
      EveryRunIsFifo(ss, es, n - 1);
      assert Goes(ss[n - 1], es[n - 1], ss[n]);
      OnlyThese(ss[n - 1], es[n - 1], pid);
      if pid in ss[n - 1].procs {
        SpaceFails(ss, es, n - 1, pid);
      }
      if pid != es[n - 1].pid {
        OthersStay(ss[n - 1], es[n - 1], pid);
      }
    }
  }

  /** A call that returns a number of bytes has moved just so many, in its one copy. */
  lemma {:induction false} ReturnsWhatMoved(ss: seq<State>, es: seq<Event>, n: nat, pid: int, r: nat) returns (m: int)
    requires Run(ss, es) && n < |ss| && pid in ss[n].procs && Reports(ss[n].procs[pid].pc, r)
    ensures CopiedAt(ss, es, pid, m, n, r)
    decreases n
  {
    ReportComes(ss, es, n, pid, r);
    if Reports(ss[n - 1].procs[pid].pc, r) {
      m := ReturnsWhatMoved(ss, es, n - 1, pid, r);
    } else {
      m := n - 1;
    }
  }

  lemma ReportComes(ss: seq<State>, es: seq<Event>, n: nat, pid: int, r: nat)
    requires Run(ss, es) && n < |ss| && pid in ss[n].procs && Reports(ss[n].procs[pid].pc, r)
    ensures n > 0 && pid in ss[n - 1].procs && !(es[n - 1].Call? && es[n - 1].pid == pid)
    ensures Reports(ss[n - 1].procs[pid].pc, r) || CopiedAt(ss, es, pid, n - 1, n, r)
  {
    assert n > 0;
    var s, e := ss[n - 1], es[n - 1];
    EveryRunIsFifo(ss, es, n - 1);
    assert Goes(s, e, ss[n]);
    if pid in s.procs {
      SpaceFails(ss, es, n - 1, pid);
    }
    ReportStays(s, e, pid, r);
    if !Reports(s.procs[pid].pc, r) {
      CopyReports(s, pid, e.copied, r);
    }
  }

  // ---------------------------------------------------------------- openings

  datatype Mode = Mode(canRead: bool, canWrite: bool)

  /** The open file handles and what the device keeps about them. */
  datatype Openings = Openings(handles: map<int, Mode>, nreaders: int, nwriters: int, buffer: bool)

  datatype OpenEvent = OpenCall(handle: int, mode: Mode, memory: bool) | ReleaseCall(handle: int)

  function Plus(b: bool): int {
    if b then 1 else 0
  }

  ghost predicate OpenNext(o: Openings, e: OpenEvent, o': Openings) {
    match e
    case OpenCall(h, mode, memory) =>
      && h !in o.handles
      && o' == if !o.buffer && !memory then o
               else Openings(o.handles[h := mode], o.nreaders + Plus(mode.canRead), o.nwriters + Plus(mode.canWrite), true)
    case ReleaseCall(h) =>
      && h in o.handles
      && var r, w := o.nreaders - Plus(o.handles[h].canRead), o.nwriters - Plus(o.handles[h].canWrite);
         o' == Openings(o.handles - {h}, r, w, o.buffer && r + w != 0)
  }

  ghost function ReadMode(): Mode -> nat {
    (m: Mode) => if m.canRead then 1 else 0
  }

  ghost function WriteMode(): Mode -> nat {
    (m: Mode) => if m.canWrite then 1 else 0
  }

  ghost predicate OpenInv(o: Openings) {
    && o.nreaders == Total(o.handles, ReadMode()) && o.nwriters == Total(o.handles, WriteMode())
    && (o.nreaders + o.nwriters > 0 ==> o.buffer)
    && (o.buffer ==> o.handles != map[])
  }

  lemma OpenStepKeepsInv(o: Openings, e: OpenEvent, o': Openings)
    requires OpenInv(o) && OpenNext(o, e, o')
    ensures OpenInv(o')
  {
    match e
    case OpenCall(h, mode, _) =>
      TotalPut(o.handles, ReadMode(), h, mode);
      TotalPut(o.handles, WriteMode(), h, mode);
    case ReleaseCall(h) =>
      TotalTake(o.handles, ReadMode(), h);
      TotalTake(o.handles, WriteMode(), h);
      if o'.handles == map[] {
        assert Total(o'.handles, ReadMode()) == Total(o'.handles, WriteMode()) == 0;
      }
  }

  ghost predicate OpenRun(os: seq<Openings>, es: seq<OpenEvent>) {
    && |os| == |es| + 1 && os[0] == Openings(map[], 0, 0, false)
    && forall i :: 0 <= i < |es| ==> OpenNext(os[i], es[i], os[i + 1])
  }

  lemma {:induction false} EveryOpening(os: seq<Openings>, es: seq<OpenEvent>, i: nat)
    requires OpenRun(os, es) && i < |os|
    ensures OpenInv(os[i])
    decreases i
  {
    if i > 0 {
      EveryOpening(os, es, i - 1);
      OpenStepKeepsInv(os[i - 1], es[i - 1], os[i]);
    }
  }

  predicate Counted(m: Mode) {
    m.canRead || m.canWrite
  }

  /** In every run the buffer exists while a handle for reading or writing is open, and never with none open. */
  lemma BufferWhileOpen(os: seq<Openings>, es: seq<OpenEvent>, i: nat)
    requires OpenRun(os, es) && i < |os|
    ensures (exists h :: h in os[i].handles && Counted(os[i].handles[h])) ==> os[i].buffer
    ensures os[i].buffer ==> os[i].handles != map[]
  {
    EveryOpening(os, es, i);
    var o := os[i];
    if h :| h in o.handles && Counted(o.handles[h]) {
      TotalPut(o.handles, ReadMode(), h, o.handles[h]);
      TotalPut(o.handles, WriteMode(), h, o.handles[h]);
    }
  }

  /** A release that leaves other handles open keeps the buffer exactly when one of them can read or write:
      a handle opened with neither (access mode 3) is not counted. */
  lemma ReleaseKeepsBufferIff(o: Openings, h: int, o': Openings)
    requires OpenInv(o) && o.buffer && OpenNext(o, ReleaseCall(h), o')
    ensures o'.buffer <==> exists k :: k in o'.handles && Counted(o'.handles[k])
  {
    OpenStepKeepsInv(o, ReleaseCall(h), o');
    if k :| k in o'.handles && Counted(o'.handles[k]) {
      TotalPut(o'.handles, ReadMode(), k, o'.handles[k]);
      TotalPut(o'.handles, WriteMode(), k, o'.handles[k]);
    } else {
      forall k | k in o'.handles
        ensures ReadMode()(o'.handles[k]) == WriteMode()(o'.handles[k]) == 0
      {
        assert !Counted(o'.handles[k]);
      }
      TotalNone(o'.handles, ReadMode());
      TotalNone(o'.handles, WriteMode());
    }
  }

  /** So the buffer can go while somebody still has the device open. */
  lemma BufferGoneWhileOpen() returns (os: seq<Openings>, es: seq<OpenEvent>)
    ensures OpenRun(os, es) && os[|es|].handles != map[] && !os[|es|].buffer
  {
    var plain, reader := Mode(false, false), Mode(true, false);
    var one := map[0 := plain];
    var o0 := Openings(map[], 0, 0, false);
    var o1 := Openings(one, 0, 0, true);
    var o2 := Openings(one[1 := reader], 1, 0, true);
    var o3 := Openings(one, 0, 0, false);
    os := [o0, o1, o2, o3];
    es := [OpenCall(0, plain, true), OpenCall(1, reader, true), ReleaseCall(1)];
    assert one[1 := reader] - {1} == one;
    assert 0 in one;
    forall i | 0 <= i < |es|
      ensures OpenNext(os[i], es[i], os[i + 1])
    {
      if i == 0 {
      } else if i == 1 {
      } else {
        assert i == 2;
      }
    }
  }
}
