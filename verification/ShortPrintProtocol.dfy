/** Writers, bottom half, interrupts and timeouts of shortprint, interleaved.  The mutex admits one
    writer at a time, so its progress is one program counter; the consumer side ignores the mutex.
    A writer reads the tail twice while it computes the free space, and the bottom half may strobe
    bytes between the two reads, as it may between any two steps of the writer. */
module ShortPrintProtocol {
  import opened Basics
  import opened ShortPrint

  /** Where the writer holding the mutex stands; `rest` is what it has still to hand over. */
  datatype Writer =
    | Idle
    | Top(rest: seq<char>)
    | Looking(rest: seq<char>, ahead: bool)                // between the two reads of the tail
    | Full(rest: seq<char>)                                // saw no space; about to join the wait queue
    | Checking(rest: seq<char>, ahead: bool, woken: bool)  // on the wait queue, between the two reads
    | Asleep(rest: seq<char>)
    | Ready(rest: seq<char>, space: nat)
    | Copied(rest: seq<char>, n: nat)
    | Kick(rest: seq<char>)                                // head advanced; about to take the spin lock

  /** `serving` means that the work function has been dequeued and is waiting for the printer.
      `accepted` is the concatenation of all chunks put behind the head so far. */
  datatype State = State(dev: Device, serving: bool, writer: Writer, accepted: seq<char>)

  datatype Event =
    | Write(data: seq<char>)
    | Compare
    | Subtract
    | Copy
    | Fault(garbage: seq<char>)
    | Advance
    | Start
    | Signal
    | Dequeue
    | Body
    | Interrupt
    | Timeout(busy: bool)

  predicate Enabled(s: State, e: Event) {
    match e
    case Write(_) => s.writer.Idle?
    case Compare => s.writer.Top? || s.writer.Full?
    case Subtract => s.writer.Looking? || s.writer.Checking?
    case Copy => s.writer.Ready?
    case Fault(garbage) => s.writer.Ready? && |garbage| <= Chunk(s.writer.rest, s.writer.space)
    case Advance => s.writer.Copied?
    case Start => s.writer.Kick?
    case Signal => s.writer.Full? || s.writer.Asleep?
    case Dequeue => s.dev.queued && !s.serving
    case Body => s.serving
    case Interrupt => true
    case Timeout(_) => s.dev.timer
  }

  function Chunk(rest: seq<char>, space: nat): nat {
    if space > |rest| then |rest| else space
  }

  function Woken(w: Writer): Writer {
    match w
    case Asleep(rest) => Full(rest)
    case Checking(rest, ahead, _) => Checking(rest, ahead, true)
    case _ => w
  }

  function Step(s: State, e: Event): State
    requires Enabled(s, e) && Safe(s)
  {
    var d := s.dev;
    match e
    case Write(data) => s.(writer := Top(data))
    case Compare =>
      if s.writer.Top? && s.writer.rest == [] then s.(writer := Idle)
      else if s.writer.Top? then s.(writer := Looking(s.writer.rest, d.head >= d.tail))
      else s.(writer := Checking(s.writer.rest, d.head >= d.tail, false))
    case Subtract =>
      var space := SpaceGiven(s.writer.ahead, d.head, d.tail);
      if space > 0 then s.(writer := Ready(s.writer.rest, space))
      else if s.writer.Looking? || s.writer.woken then s.(writer := Full(s.writer.rest))
      else s.(writer := Asleep(s.writer.rest))
    case Copy =>
      var n := Chunk(s.writer.rest, s.writer.space);
      s.(dev := Filled(d, s.writer.rest[..n]), writer := Copied(s.writer.rest, n))
    case Fault(garbage) => s.(dev := Filled(d, garbage), writer := Idle)
    case Advance =>
      var n := s.writer.n;
      State(Advanced(d, n), s.serving, Kick(s.writer.rest[n..]), s.accepted + s.writer.rest[..n])
    case Start => s.(dev := Started(d), writer := Top(s.writer.rest))
    case Signal => s.(writer := Idle)
    case Dequeue => s.(dev := d.(queued := false), serving := true)
    case Body =>
      var d' := Served(d);
      s.(dev := d', serving := false, writer := if WakesWriters(d') then Woken(s.writer) else s.writer)
    case Interrupt => s.(dev := Interrupted(d))
    case Timeout(busy) => s.(dev := TimedOut(d, busy))
  }

  // ---------------------------------------------------------------- invariants

  /** No step of the writer can touch a byte that is still to be printed. */
  ghost predicate Safe(s: State) {
    && s.dev.Valid()
    && match s.writer
       case Looking(rest, ahead) => rest != [] && (ahead ==> s.dev.tail <= s.dev.head)
       case Checking(rest, ahead, _) => rest != [] && (ahead ==> s.dev.tail <= s.dev.head)
       case Full(rest) => rest != []
       case Asleep(rest) => rest != []
       case Ready(rest, space) => rest != [] && s.dev.Room(space)
       case Copied(rest, n) => n <= |rest| && s.dev.Room(n) && s.dev.buf[s.dev.head..s.dev.head + n] == rest[..n]
       case _ => true
  }

  /** Printed bytes followed by buffered bytes are exactly the accepted bytes. */
  ghost predicate Lossless(s: State)
    requires s.dev.Valid()
  {
    s.dev.printed + s.dev.Contents() == s.accepted
  }

  /** Buffered output is being printed or about to be started, and active output has something pending. */
  ghost predicate NotStranded(s: State) {
    && (s.dev.head != s.dev.tail ==> s.dev.active || s.writer.Kick?)
    && (s.dev.active ==> s.dev.timer || s.dev.queued || s.serving)
  }

  predicate HalfFull(d: Device) {
    d.Len() >= PAGE_SIZE - SP_MIN_SPACE
  }

  /** The one gap between the two reads of the tail: it wrapped onto a head at the buffer's start. */
  predicate WrappedEmpty(d: Device) {
    d.head == 0 && d.tail == 0
  }

  ghost predicate SleepsOnMuch(s: State) {
    && (s.writer.Asleep? ==> HalfFull(s.dev) || WrappedEmpty(s.dev))
    && (s.writer.Checking? && !s.writer.ahead && !s.writer.woken ==>
          s.dev.head < s.dev.tail || HalfFull(s.dev) || WrappedEmpty(s.dev))
  }

  ghost predicate Inv(s: State) {
    Safe(s) && Lossless(s) && NotStranded(s) && SleepsOnMuch(s)
  }

  ghost predicate Init(s: State) {
    && s.dev.Valid() && s.dev.head == s.dev.tail && s.dev.printed == []
    && !s.dev.active && !s.dev.timer && !s.dev.queued && !s.serving
    && s.writer.Idle? && s.accepted == []
  }

  lemma FillKeeps(s: State, data: seq<char>, w: Writer)
    requires Inv(s) && s.writer.Ready? && s.dev.head + |data| <= PAGE_SIZE && |data| <= s.dev.Free()
    requires w.Idle? || (w.Copied? && w.n == |data| <= |w.rest| && w.rest[..w.n] == data && s.dev.Room(w.n))
    ensures Inv(s.(dev := Filled(s.dev, data), writer := w))
  {
    FillKeepsContents(s.dev, data);
  }

  lemma AdvanceKeeps(s: State)
    requires Inv(s) && s.writer.Copied?
    ensures Inv(Step(s, Advance))
  {
    var n := s.writer.n;
    AdvanceAppends(s.dev, n);
    Regroups(s.dev.printed, s.dev.Contents(), s.writer.rest[..n]);
  }

  lemma BodyKeeps(s: State)
    requires Inv(s) && s.serving
    ensures Inv(Step(s, Body))
  {
    ServedFacts(s.dev);
    WakeRange(Served(s.dev));
    BodyKeepsSafe(s);
  }

  lemma BodyKeepsSafe(s: State)
    requires Safe(s) && s.serving && Served(s.dev).Valid()
    ensures Safe(Step(s, Body))
  {
  }

  lemma SubtractKeeps(s: State)
    requires Inv(s) && Enabled(s, Subtract)
    ensures Inv(Step(s, Subtract))
  {
    TornSpaceIsSafe(s.writer.ahead, s.dev);
  }

  lemma ConsumerKeeps(s: State, e: Event)
    requires Inv(s) && Enabled(s, e) && (e.Start? || e.Dequeue? || e.Interrupt? || e.Timeout?)
    ensures Inv(Step(s, e))
  {
    assert Step(s, e).dev.Contents() == s.dev.Contents();
  }

  lemma StepKeepsInv(s: State, e: Event)
    requires Inv(s) && Enabled(s, e)
    ensures Inv(Step(s, e))
  {
    match e
    case Copy => FillKeeps(s, s.writer.rest[..Chunk(s.writer.rest, s.writer.space)], Step(s, e).writer);
    case Fault(garbage) => FillKeeps(s, garbage, Idle);
    case Advance => AdvanceKeeps(s);
    case Subtract => SubtractKeeps(s);
    case Body => BodyKeeps(s);
    case Start => ConsumerKeeps(s, e);
    case Dequeue => ConsumerKeeps(s, e);
    case Interrupt => ConsumerKeeps(s, e);
    case Timeout(_) => ConsumerKeeps(s, e);
    case _ =>
  }

  // ---------------------------------------------------------------- every run

  ghost predicate Run(ss: seq<State>, es: seq<Event>) {
    && |ss| == |es| + 1 && Init(ss[0])
    && forall i :: 0 <= i < |es| ==> Goes(ss[i], es[i], ss[i + 1])
  }

  /** From an unsafe state anything could follow. */
  ghost predicate Goes(s: State, e: Event, s': State) {
    Enabled(s, e) && (Safe(s) ==> s' == Step(s, e))
  }

  /** FIFO without loss, no stranded output and sound sleeping hold throughout every run. */
  lemma {:induction false} EveryRun(ss: seq<State>, es: seq<Event>, i: nat)
    requires Run(ss, es) && i < |ss|
    ensures Inv(ss[i])
    decreases i
  {
    if i > 0 {
      EveryRun(ss, es, i - 1);
      assert Goes(ss[i - 1], es[i - 1], ss[i]);
      StepKeepsInv(ss[i - 1], es[i - 1]);
    }
  }

  /** A chunk is as much as is left and as the space found holds. */
  lemma ChunkIs(rest: seq<char>, space: nat)
    ensures Chunk(rest, space) == Min(|rest|, space)
  {
  }

  /** What a call of write has yet to put into the buffer. */
  function Left(w: Writer): seq<char> {
    if w.Idle? then [] else w.rest
  }

  /** No step takes a byte from a call without accepting it: what has been accepted, followed by what is left to
      the call, stays the same until the call returns. */
  lemma CallStep(s: State, e: Event)
    requires Safe(s) && Enabled(s, e) && !s.writer.Idle?
    ensures var s' := Step(s, e);
      if s'.writer.Idle? then s'.accepted == s.accepted && (e.Compare? ==> Left(s.writer) == [])
      else s'.accepted + Left(s'.writer) == s.accepted + Left(s.writer)
  {
    match e
    case Advance =>
      var n := s.writer.n;
      assert s.writer.rest == s.writer.rest[..n] + s.writer.rest[n..];
    case _ =>
  }

  /** A call of write under way has accepted a prefix of its data, in order, and holds the rest; when it comes to
      its end it has accepted all of it. */
  lemma {:induction false} CallAccepts(ss: seq<State>, es: seq<Event>, i: nat, n: nat)
    requires Run(ss, es) && i < n < |ss| && es[i].Write? && forall m :: i < m <= n ==> !ss[m].writer.Idle?
    ensures ss[n].accepted + Left(ss[n].writer) == ss[i].accepted + es[i].data
    ensures ss[n].writer.Top? && ss[n].writer.rest == [] ==> ss[n].accepted == ss[i].accepted + es[i].data
    decreases n
  {
    EveryRun(ss, es, n - 1);
    assert Goes(ss[n - 1], es[n - 1], ss[n]);
    if i < n - 1 {
      CallAccepts(ss, es, i, n - 1);
      CallStep(ss[n - 1], es[n - 1]);
    }
  }

  /** A space value read earlier stays good, whatever the consumer side does meanwhile. */
  lemma SpaceStaysSafe(s: State, e: Event)
    requires Inv(s) && Enabled(s, e) && s.writer.Ready? && (e.Dequeue? || e.Body? || e.Interrupt? || e.Timeout?)
    ensures Step(s, e).writer == s.writer && Step(s, e).dev.Room(s.writer.space)
    ensures s.dev.Free() <= Step(s, e).dev.Free()
  {
    StepKeepsInv(s, e);
    if e.Body? && s.dev.head != s.dev.tail {
      StrobeTakesFirst(s.dev);
    }
  }

  /** When output is inactive and no writer is about to start it, everything accepted has been printed:
      this is what the wait in shortp_release relies on. */
  lemma InactiveIsFlushed(s: State)
    requires Inv(s) && !s.dev.active && !s.writer.Kick?
    ensures s.dev.printed == s.accepted
  {
  }

  // ---------------------------------------------------------------- progress of the output

  // ---------------------------------------------------------------- the consumer side alone

  /** Neither a writer's step nor a signal to it. */
  predicate Consumes(e: Event) {
    e.Dequeue? || e.Body? || e.Interrupt? || e.Timeout?
  }

  /** From `ss[0]` on, only the consumer side moves. */
  ghost predicate Consumption(ss: seq<State>, es: seq<Event>) {
    && |ss| == |es| + 1 && Inv(ss[0])
    && forall i :: 0 <= i < |es| ==> ConsumesAt(ss, es, i)
  }

  ghost predicate ConsumesAt(ss: seq<State>, es: seq<Event>, i: int)
    requires 0 <= i < |es| < |ss|
  {
    Goes(ss[i], es[i], ss[i + 1]) && Consumes(es[i])
  }

  /** How often the work function has run. */
  function Bodies(es: seq<Event>, n: nat): nat
    requires n <= |es|
  {
    if n == 0 then 0 else Bodies(es, n - 1) + if es[n - 1].Body? then 1 else 0
  }

  lemma BodyOnce(s: State)
    requires Safe(s) && s.serving
    ensures var s' := Step(s, Body);
      && s'.accepted == s.accepted
      && s'.dev.Len() == (if s.dev.Len() > 0 then s.dev.Len() - 1 else 0)
      && s'.dev.active == (s.dev.active && s.dev.Len() > 0)
      && s'.writer == if WakesWriters(s'.dev) then Woken(s.writer) else s.writer
  {
    ServedFacts(s.dev);
  }

  lemma OtherOnce(s: State, e: Event)
    requires Safe(s) && Enabled(s, e) && Consumes(e) && !e.Body?
    ensures var s' := Step(s, e);
      s'.accepted == s.accepted && s'.dev.Len() == s.dev.Len() && s'.dev.active == s.dev.active && s'.writer == s.writer
  {
  }

  lemma ConsumedOnce(s: State, e: Event)
    requires Inv(s) && Enabled(s, e) && Consumes(e)
    ensures var s' := Step(s, e);
      && Inv(s') && s'.accepted == s.accepted
      && s'.dev.Len() == (if e.Body? && s.dev.Len() > 0 then s.dev.Len() - 1 else s.dev.Len())
      && s'.dev.active == (s.dev.active && !(e.Body? && s.dev.Len() == 0))
      && s'.writer == if e.Body? && WakesWriters(s'.dev) then Woken(s.writer) else s.writer
  {
    StepKeepsInv(s, e);
    if e.Body? {
      BodyOnce(s);
    } else {
      OtherOnce(s, e);
    }
  }

  lemma GoesKeeps(s: State, e: Event, s': State)
    requires Inv(s) && Goes(s, e, s')
    ensures Inv(s')
  {
    StepKeepsInv(s, e);
  }

  lemma {:induction false} ConsumptionKeeps(ss: seq<State>, es: seq<Event>, n: nat)
    requires Consumption(ss, es) && n < |ss|
    ensures Inv(ss[n])
    decreases n
  {
    if n > 0 {
      ConsumptionKeeps(ss, es, n - 1);
      assert ConsumesAt(ss, es, n - 1);
      GoesKeeps(ss[n - 1], es[n - 1], ss[n]);
    }
  }

  lemma ConsumptionStep(ss: seq<State>, es: seq<Event>, k: nat)
    requires Consumption(ss, es) && k < |es|
    ensures ss[k + 1].accepted == ss[k].accepted
    ensures ss[k + 1].dev.Len() == if es[k].Body? && ss[k].dev.Len() > 0 then ss[k].dev.Len() - 1 else ss[k].dev.Len()
    ensures ss[k + 1].dev.active == (ss[k].dev.active && !(es[k].Body? && ss[k].dev.Len() == 0))
    ensures ss[k + 1].writer == if es[k].Body? && WakesWriters(ss[k + 1].dev) then Woken(ss[k].writer) else ss[k].writer
  {
    ConsumptionKeeps(ss, es, k);
    assert ConsumesAt(ss, es, k);
    ConsumedOnce(ss[k], es[k]);
  }

  /** However interrupts and timeouts fall, each run of the work function takes one byte out, and the first to
      find none deactivates output. */
  lemma {:induction false} ConsumptionCounts(ss: seq<State>, es: seq<Event>, n: nat)
    requires Consumption(ss, es) && n < |ss|
    ensures ss[n].accepted == ss[0].accepted
    ensures ss[n].dev.Len() == if Bodies(es, n) <= ss[0].dev.Len() then ss[0].dev.Len() - Bodies(es, n) else 0
    ensures ss[n].dev.active == (ss[0].dev.active && Bodies(es, n) <= ss[0].dev.Len())
    decreases n
  {
    if n > 0 {
      ConsumptionCounts(ss, es, n - 1);
      ConsumptionStep(ss, es, n - 1);
    }
  }

  /** In every run of the consumer side alone, one more run of the work function than there are bytes has printed
      all that was accepted and deactivated output. */
  lemma EveryConsumptionDrains(ss: seq<State>, es: seq<Event>, n: nat)
    requires Consumption(ss, es) && n < |ss| && Bodies(es, n) > ss[0].dev.Len()
    ensures !ss[n].dev.active && ss[n].dev.printed == ss[n].accepted == ss[0].accepted
  {
    ConsumptionKeeps(ss, es, n);
    ConsumptionCounts(ss, es, n);
    assert ss[n].dev.Contents() == [];
  }

  /** And before that, as soon as it has brought the buffer below half full, a sleeping writer has been woken. */
  lemma {:induction false} EveryConsumptionWakes(ss: seq<State>, es: seq<Event>, n: nat)
    requires Consumption(ss, es) && n < |ss| && ss[0].writer.Asleep? && HalfFull(ss[0].dev)
    ensures ss[n].writer == if ss[0].dev.Len() - Bodies(es, n) >= PAGE_SIZE - SP_MIN_SPACE then ss[0].writer else Full(ss[0].writer.rest)
    decreases n
  {
    if n > 0 {
      EveryConsumptionWakes(ss, es, n - 1);
      ConsumptionCounts(ss, es, n - 1);
      ConsumptionStep(ss, es, n - 1);
      ConsumptionKeeps(ss, es, n);
      WakeRange(ss[n].dev);
    }
  }

  function Serve(s: State): Event {
    if s.serving then Body else if s.dev.queued then Dequeue else Timeout(false)
  }

  /** Steps left until the buffer is printed, if only the consumer side runs. */
  ghost function Work(s: State): nat {
    4 * s.dev.Len() + if s.serving then 0 else if s.dev.queued then 1 else 2
  }

  /** From every reachable state with active output, the consumer side alone, with no writer moving and
      even if every interrupt is lost, prints all that was accepted and ends inactive. */
  lemma {:induction false} OutputDrains(s: State) returns (s': State, es: seq<Event>)
    requires Inv(s) && s.dev.active
    ensures Inv(s') && !s'.dev.active && s'.dev.printed == s'.accepted == s.accepted
    ensures forall e :: e in es ==> e.Dequeue? || e.Body? || e == Timeout(false)
    ensures Leads(s, es, s')
    decreases Work(s)
  {
    var e := Serve(s);
    StepKeepsInv(s, e);
    var next := Step(s, e);
    if next.dev.active {
      if e.Body? {
        StrobeTakesFirst(s.dev);
      }
      s', es := OutputDrains(next);
      assert ([e] + es)[1..] == es;
      es := [e] + es;
    } else {
      s', es := next, [e];
      assert Leads(next, [e][1..], s');
    }
  }

  ghost predicate Leads(s: State, es: seq<Event>, s': State)
    decreases |es|
  {
    if es == [] then s == s' else Safe(s) && Enabled(s, es[0]) && Leads(Step(s, es[0]), es[1..], s')
  }
}
