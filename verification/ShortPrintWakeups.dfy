/** Two places where shortprint's protocol has a gap, each with the exact condition under which it is
    hit and a run that hits it: a writer that sleeps through the last wake-up, and a timer that is
    added while it is pending. */
module ShortPrintWakeups {
  import opened ShortPrint
  import opened ShortPrintProtocol

  /** Some run ends in `s`; the invariant comes with that, by EveryRun. */
  ghost predicate Reachable(s: State) {
    Inv(s) && exists ss, es :: Run(ss, es) && ss[|es|] == s
  }

  lemma RunExtends(ss: seq<State>, es: seq<Event>, e: Event, s': State)
    requires Run(ss, es) && Goes(ss[|es|], e, s')
    ensures Run(ss + [s'], es + [e])
  {
    var ss', es' := ss + [s'], es + [e];
    forall i | 0 <= i < |es'|
      ensures Goes(ss'[i], es'[i], ss'[i + 1])
    {
      if i < |es| {
        assert ss'[i] == ss[i] && ss'[i + 1] == ss[i + 1] && es'[i] == es[i];
        assert Goes(ss[i], es[i], ss[i + 1]);
      }
    }
  }

  lemma ReachStep(s: State, e: Event)
    requires Reachable(s) && Enabled(s, e)
    ensures Reachable(Step(s, e))
  {
    StepKeepsInv(s, e);
    var ss, es :| Run(ss, es) && ss[|es|] == s;
    RunExtends(ss, es, e, Step(s, e));
    assert (ss + [Step(s, e)])[|es + [e]|] == Step(s, e);
  }

  // ---------------------------------------------------------------- sleeping writers

  /** A writer asleep on a buffer at least half full is woken by the consumer side alone, before the
      buffer has drained. */
  lemma {:induction false} SleeperIsWoken(s: State) returns (s': State, es: seq<Event>)
    requires Inv(s) && s.writer.Asleep? && HalfFull(s.dev)
    ensures Leads(s, es, s') && Inv(s') && s'.writer == Full(s.writer.rest) && 0 < s'.dev.Len()
    ensures forall e :: e in es ==> e.Dequeue? || e.Body? || e == Timeout(false)
    decreases Work(s)
  {
    var e := Serve(s);
    StepKeepsInv(s, e);
    var next := Step(s, e);
    if e.Body? {
      ServedFacts(s.dev);
      WakeRange(next.dev);
    }
    if next.writer.Asleep? {
      s', es := SleeperIsWoken(next);
      assert ([e] + es)[1..] == es;
      es := [e] + es;
    } else {
      s', es := next, [e];
      assert Leads(next, [e][1..], s');
    }
  }

  /** A writer asleep after the tail wrapped onto a head at the buffer's start is never woken:
      nothing but a signal changes that, and the mutex it holds keeps every other writer out. */
  lemma SleeperIsStranded(s: State, e: Event)
    requires Inv(s) && s.writer.Asleep? && WrappedEmpty(s.dev) && Enabled(s, e) && !e.Signal?
    ensures Step(s, e).writer == s.writer && WrappedEmpty(Step(s, e).dev)
  {
    WakeRange(s.dev);
  }

  /** Going to sleep, the writer can rely on a wake-up exactly when the second read of the tail did not
      find head and tail both at the buffer's start. */
  lemma SleepIsSoundIff(s: State)
    requires Inv(s) && s.writer.Checking? && Step(s, Subtract).writer.Asleep?
    ensures HalfFull(s.dev) <==> !WrappedEmpty(s.dev)
  {
    StepKeepsInv(s, Subtract);
  }

  /** The writer's two looks at the tail, uninterrupted. */
  lemma FindSpace(s: State) returns (s': State)
    requires Reachable(s) && s.writer.Top? && s.writer.rest != [] && s.dev.Free() > 0
    ensures Reachable(s') && s'.writer == Ready(s.writer.rest, Contiguous(s.dev))
    ensures s'.dev == s.dev && s'.serving == s.serving
  {
    ReachStep(s, Compare);
    var s1 := Step(s, Compare);
    SpaceIsContiguousFree(s.dev);
    ReachStep(s1, Subtract);
    s' := Step(s1, Subtract);
  }

  ghost function Contiguous(d: Device): nat
    requires d.Valid()
  {
    if d.Free() <= PAGE_SIZE - d.head then d.Free() else PAGE_SIZE - d.head
  }

  /** One round of the writer's loop, uninterrupted, up to the lock before shortp_start_output. */
  lemma PutChunk(s: State) returns (s': State)
    requires Reachable(s) && s.writer.Top? && s.writer.rest != [] && s.dev.Free() > 0
    ensures Reachable(s')
    ensures var n := Chunk(s.writer.rest, Contiguous(s.dev));
      && s'.writer == Kick(s.writer.rest[n..])
      && s'.dev == s.dev.(buf := s'.dev.buf, head := Incr(s.dev.head, n))
      && s'.serving == s.serving
  {
    var s2 := FindSpace(s);
    ReachStep(s2, Copy);
    var s3 := Step(s2, Copy);
    ReachStep(s3, Advance);
    s' := Step(s3, Advance);
  }

  /** An interrupt, and the work it queues. */
  lemma ServeOne(s: State) returns (s': State)
    requires Reachable(s) && s.dev.active && !s.serving
    ensures Reachable(s') && !s'.serving && !s'.dev.queued
    ensures s'.dev == Served(s.dev).(queued := false)
    ensures s'.writer == if WakesWriters(s'.dev) then Woken(s.writer) else s.writer
  {
    ReachStep(s, Interrupt);
    var s1 := Step(s, Interrupt);
    ReachStep(s1, Dequeue);
    var s2 := Step(s1, Dequeue);
    ReachStep(s2, Body);
    s' := Step(s2, Body);
  }

  lemma {:induction false} ServeMany(s: State, k: nat) returns (s': State)
    requires Reachable(s) && s.dev.active && !s.serving && s.writer.Full?
    requires s.dev.head < s.dev.tail && s.dev.tail + k < PAGE_SIZE
    ensures Reachable(s') && !s'.serving && s'.dev.active && s'.writer == s.writer
    ensures s'.dev.head == s.dev.head && s'.dev.tail == s.dev.tail + k
    decreases k
  {
    if k == 0 {
      s' := s;
    } else {
      var s1 := ServeOne(s);
      s' := ServeMany(s1, k - 1);
    }
  }

  /** A writer with one byte too many, before a full buffer whose head is at the start. */
  lemma WriterMeetsFullBuffer() returns (s: State)
    ensures Reachable(s) && s.writer.Full? && s.dev.active && !s.serving && s.dev.head == 0 && s.dev.tail == 1
  {
    var s2 := FirstByteOut();
    var s3 := PutChunk(s2);
    ReachStep(s3, Start);
    s := FillUp(Step(s3, Start));
  }

  /** The first chunk of a write of a page and one byte has filled the buffer, and one byte has been printed. */
  lemma FirstByteOut() returns (s: State)
    ensures Reachable(s) && s.writer.Top? && |s.writer.rest| == 2 && !s.serving && s.dev.active
    ensures s.dev.head == PAGE_SIZE - 1 && s.dev.tail == 1
  {
    var s0 := FirstState();
    var data := seq(PAGE_SIZE + 1, _ => 'x');
    ReachStep(s0, Write(data));
    var s1 := PutChunk(Step(s0, Write(data)));
    ReachStep(s1, Start);
    s := Drain0(Step(s1, Start));
  }

  /** The wake-up is really lost: a reachable state with an empty buffer, no work, no timer, and a writer
      asleep with data in hand, in which no step but a signal changes anything. */
  lemma WriterSleepsForever() returns (s: State)
    ensures Reachable(s) && s.writer.Asleep? && s.writer.rest != [] && WrappedEmpty(s.dev)
    ensures !s.dev.active && !s.dev.queued && !s.serving && !s.dev.timer
    ensures forall e :: Enabled(s, e) && !e.Signal? ==> Step(s, e) == s
  {
    var s6 := LastByteOut();
    ReachStep(s6, Subtract);
    s := ServeOne(Step(s6, Subtract));
  }

  /** Between the two reads of the tail, the last byte goes out and the tail wraps onto the head. */
  lemma LastByteOut() returns (s: State)
    ensures Reachable(s) && s.writer.Checking? && !s.writer.ahead && !s.writer.woken
    ensures WrappedEmpty(s.dev) && s.dev.active && !s.serving && !s.dev.queued
  {
    var s4 := WriterMeetsFullBuffer();
    var s5 := ServeMany(s4, PAGE_SIZE - 2);
    ReachStep(s5, Compare);
    s := ServeOne(Step(s5, Compare));
  }

  lemma FirstState() returns (s: State)
    ensures Reachable(s) && Init(s) && s.dev.head == 0
  {
    s := State(Device(seq(PAGE_SIZE, _ => ' '), 0, 0, false, false, false, []), false, Idle, []);
    var none: seq<Event> := [];
    assert Run([s], none) && [s][|none|] == s;
  }

  /** The work item that shortp_start_output queued takes its first byte. */
  lemma Drain0(s: State) returns (s': State)
    requires Reachable(s) && s.dev.active && s.dev.queued && !s.serving && s.writer.Top?
    ensures Reachable(s') && !s'.serving && !s'.dev.queued
    ensures s'.dev == Served(s.dev).(queued := false) && s'.writer == s.writer
  {
    ReachStep(s, Dequeue);
    var s1 := Step(s, Dequeue);
    ReachStep(s1, Body);
    s' := Step(s1, Body);
  }

  /** A writer that finds the buffer full. */
  lemma FillUp(s: State) returns (s': State)
    requires Reachable(s) && s.writer.Top? && s.writer.rest != [] && s.dev.Free() == 0
    ensures Reachable(s') && s' == s.(writer := Full(s.writer.rest))
  {
    ReachStep(s, Compare);
    var s1 := Step(s, Compare);
    SpaceIsContiguousFree(s.dev);
    ReachStep(s1, Subtract);
    s' := Step(s1, Subtract);
  }

  // ---------------------------------------------------------------- the timer

  /** shortp_start_output arms the timer with add_timer, which must not be given a pending timer. */
  predicate AddsPendingTimer(s: State, e: Event) {
    e.Start? && s.writer.Kick? && !s.dev.active && s.dev.timer
  }

  /** The timer is pending although output is inactive. */
  predicate Armed(s: State) {
    s.dev.timer && !s.dev.active
  }

  /** A work item left over from earlier output strobes a byte of a device that nobody has activated. */
  predicate Strobes(s: State, e: Event) {
    e.Body? && !s.dev.active && s.dev.head != s.dev.tail
  }

  /** The timer is taken over, fires, or is deleted with the buffer found empty. */
  predicate Disarms(s: State, e: Event) {
    e.Start? || e.Timeout? || (e.Body? && s.dev.head == s.dev.tail)
  }

  /** Event `j` of the run is such a strobe, and nothing has disarmed the timer between it and event `i`. */
  ghost predicate LeftoverStrobe(ss: seq<State>, es: seq<Event>, j: int, i: int) {
    && 0 <= j < i <= |es| < |ss|
    && Strobes(ss[j], es[j])
    && forall m :: j < m < i ==> !Disarms(ss[m], es[m])
  }

  /** One step switches the armed state on by a leftover strobe only, and off by a disarming event only. */
  lemma ArmedSteps(s: State, e: Event)
    requires Inv(s) && Enabled(s, e)
    ensures Strobes(s, e) ==> Armed(Step(s, e))
    ensures !Strobes(s, e) ==> (Armed(Step(s, e)) <==> Armed(s) && !Disarms(s, e))
  {
  }

  lemma {:induction false} ArmedIff(ss: seq<State>, es: seq<Event>, i: nat)
    requires Run(ss, es) && i < |ss|
    ensures Armed(ss[i]) <==> exists j :: LeftoverStrobe(ss, es, j, i)
    decreases i
  {
    if i > 0 {
      var s, e := ss[i - 1], es[i - 1];
      ArmedIff(ss, es, i - 1);
      EveryRun(ss, es, i - 1);
      assert Goes(s, e, ss[i]);
      ArmedSteps(s, e);
      if Strobes(s, e) {
        assert LeftoverStrobe(ss, es, i - 1, i);
      } else if Armed(s) && !Disarms(s, e) {
        var j :| LeftoverStrobe(ss, es, j, i - 1);
        assert LeftoverStrobe(ss, es, j, i);
      }
      if j :| LeftoverStrobe(ss, es, j, i) {
        assert j == i - 1 || LeftoverStrobe(ss, es, j, i - 1);
      }
    }
  }

  /** shortp_start_output adds a pending timer exactly when a leftover work item has strobed a byte of the
      inactive device and since then no start, no timeout and no work on an empty buffer has come. */
  lemma PendingTimerIff(ss: seq<State>, es: seq<Event>, i: nat)
    requires Run(ss, es) && i < |es| && es[i].Start?
    ensures AddsPendingTimer(ss[i], es[i]) <==> exists j :: LeftoverStrobe(ss, es, j, i)
  {
    ArmedIff(ss, es, i);
    assert Goes(ss[i], es[i], ss[i + 1]);
  }

  /** The strobe falls between one writer's advance of the head and its taking of the lock: the writer stands
      there from the strobe on. */
  lemma {:induction false} StrobeBeforeStart(ss: seq<State>, es: seq<Event>, j: int, i: int)
    requires Run(ss, es) && LeftoverStrobe(ss, es, j, i)
    ensures ss[i].writer.Kick? && ss[i].writer == ss[j].writer
    decreases i
  {
    EveryRun(ss, es, i - 1);
    assert Goes(ss[i - 1], es[i - 1], ss[i]);
    if j < i - 1 {
      assert LeftoverStrobe(ss, es, j, i - 1);
      StrobeBeforeStart(ss, es, j, i - 1);
      assert !Disarms(ss[i - 1], es[i - 1]);
    }
  }

  /** A run that does it: a second interrupt re-queues the work item while it waits for the printer; the
      first execution finds the buffer empty and deactivates output, the second strobes a new byte. */
  lemma PendingTimerIsAdded() returns (s: State)
    ensures Reachable(s) && Enabled(s, Start) && AddsPendingTimer(s, Start)
  {
    var s0 := FirstState();
    ReachStep(s0, Write("a"));
    var s1 := PutChunk(Step(s0, Write("a")));
    ReachStep(s1, Start);
    var s2 := Drain0(Step(s1, Start));
    var s3 := Requeue(s2);
    ReachStep(s3, Compare);
    var s4 := Step(s3, Compare);
    ReachStep(s4, Write("b"));
    var s5 := PutChunk(Step(s4, Write("b")));
    ReachStep(s5, Dequeue);
    var s6 := Step(s5, Dequeue);
    ReachStep(s6, Body);
    s := Step(s6, Body);
  }

  /** Work runs on an empty buffer while another execution of it is queued. */
  lemma Requeue(s: State) returns (s': State)
    requires Reachable(s) && s.dev.active && s.dev.head == s.dev.tail && !s.serving && s.writer.Top?
    ensures Reachable(s') && !s'.serving && s'.writer == s.writer
    ensures s'.dev == s.dev.(active := false, timer := false, queued := true)
  {
    ReachStep(s, Interrupt);
    var s1 := Step(s, Interrupt);
    ReachStep(s1, Dequeue);
    var s2 := Step(s1, Dequeue);
    ReachStep(s2, Interrupt);
    var s3 := Step(s2, Interrupt);
    ReachStep(s3, Body);
    s' := Step(s3, Body);
  }
}
