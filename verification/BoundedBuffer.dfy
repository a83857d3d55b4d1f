/** Producers and consumers around one bounded stack, synchronised by two counting semaphores and a
    mutex.  `recheck` selects the second program, whose threads take the mutex first and test
    the buffer again after waking up. */
module BoundedBuffer {
  import opened Basics
  import opened Totals

  /** The array and index of the C programs; the boolean results stand for the printed complaints. */
  class Stack {
    const slots: array<int>
    var index: nat

    ghost predicate Valid()
      reads this
    {
      index <= slots.Length
    }

    function Contents(): seq<int>
      requires Valid()
      reads this, slots
    {
      slots[..index]
    }

    constructor (size: nat)
      ensures Valid() && Contents() == [] && slots.Length == size
    {
      slots := new int[size];
      index := 0;
    }

    method InsertBuffer(value: int) returns (overflow: bool)
      requires Valid()
      modifies this, slots
      ensures Valid() && (Contents(), overflow) == Insert(old(Contents()), slots.Length, value)
    {
      if index < slots.Length {
        slots[index] := value;
        index := index + 1;
        overflow := false;
        assert Contents() == old(Contents()) + [value];
      } else {
        overflow := true;
      }
    }

    method DequeueBuffer() returns (value: int, underflow: bool)
      requires Valid()
      modifies this
      ensures Valid() && (Contents(), value, underflow) == Dequeue(old(Contents()))
    {
      if index > 0 {
        index := index - 1;
        value, underflow := slots[index], false;
        assert Contents() == old(Contents())[..index];
      } else {
        value, underflow := 0, true;
      }
    }
  }

  function Insert(s: seq<int>, size: nat, value: int): (seq<int>, bool) {
    if |s| < size then (s + [value], false) else (s, true)
  }

  function Dequeue(s: seq<int>): (seq<int>, int, bool) {
    if |s| > 0 then (s[..|s| - 1], s[|s| - 1], false) else ([], 0, true)
  }

  /** The two operations are those of a stack, and each complains exactly when it can do nothing. */
  lemma StackLaws(s: seq<int>, size: nat, value: int)
    ensures Insert(s, size, value).1 <==> |s| >= size
    ensures Dequeue(s).2 <==> s == []
    ensures |s| >= size ==> Insert(s, size, value).0 == s
    ensures |s| < size ==> Dequeue(Insert(s, size, value).0) == (s, value, false)
    ensures s != [] && |s| <= size ==> Insert(Dequeue(s).0, size, Dequeue(s).1) == (s, false)
  {
    if s != [] {
      assert s == s[..|s| - 1] + [s[|s| - 1]];
    }
  }

  // ---------------------------------------------------------------- threads

  datatype Role = Producer | Consumer

  /** `Held` occurs only with re-checks: the mutex is held at the top of the do loop. */
  datatype Pc = Top | Held | Wait | Lock | Inside | Leave | Post | Done

  datatype Thread = Thread(role: Role, left: nat, pc: Pc, value: int)

  /** `faults` counts overflow and underflow messages, `respins` failed re-checks. */
  datatype State = State(size: nat, recheck: bool, buffer: seq<int>, full: nat, empty: nat, mutex: Option<int>,
                         threads: map<int, Thread>, produced: multiset<int>, consumed: multiset<int>,
                         faults: nat, respins: nat)

  predicate Enabled(s: State, t: int) {
    && t in s.threads
    && var th := s.threads[t];
       match th.pc
       case Top => th.left == 0 || !s.recheck || s.mutex.None?
       case Wait => if th.role.Producer? then s.full > 0 else s.empty > 0
       case Lock => s.mutex.None?
       case Done => false
       case _ => true
  }

  function To(s: State, t: int, pc: Pc): State
    requires t in s.threads
  {
    s.(threads := s.threads[t := s.threads[t].(pc := pc)])
  }

  function Deposit(s: State, t: int): State
    requires t in s.threads
  {
    var (buffer, overflow) := Insert(s.buffer, s.size, s.threads[t].value);
    To(s, t, Leave).(buffer := buffer, produced := s.produced + multiset{s.threads[t].value},
                     faults := s.faults + if overflow then 1 else 0)
  }

  function Withdraw(s: State, t: int): State
    requires t in s.threads
  {
    var (buffer, taken, underflow) := Dequeue(s.buffer);
    To(s, t, Leave).(buffer := buffer, consumed := s.consumed + multiset{taken},
                     faults := s.faults + if underflow then 1 else 0)
  }

  /** One step of thread `t`; `value` is what rand() returns if it asks. */
  function Step(s: State, t: int, value: int): State
    requires Enabled(s, t)
  {
    var th := s.threads[t];
    match th.pc
    case Top =>
      if th.left == 0 then To(s, t, Done)
      else
        var s' := s.(threads := s.threads[t := th.(value := value)]);
        if s.recheck then To(s', t, Held).(mutex := Some(t)) else To(s', t, Wait)
    case Held => To(s, t, Wait).(mutex := None)
    case Wait =>
      if th.role.Producer? then To(s, t, Lock).(full := s.full - 1) else To(s, t, Lock).(empty := s.empty - 1)
    case Lock => To(s, t, Inside).(mutex := Some(t))
    case Inside =>
      if s.recheck && |s.buffer| == (if th.role.Producer? then s.size else 0) then
        To(s, t, Held).(respins := s.respins + 1)
      else if th.role.Producer? then Deposit(s, t)
      else Withdraw(s, t)
    case Leave => To(s, t, Post).(mutex := None)
    case Post =>
      var s' := s.(threads := s.threads[t := th.(left := if th.left > 0 then th.left - 1 else 0, pc := Top)]);
      if th.role.Producer? then s'.(empty := s.empty + 1) else s'.(full := s.full + 1)
    case Done => s
  }

  ghost predicate Init(s: State) {
    && s.buffer == [] && s.full == s.size && s.empty == 0 && s.mutex.None?
    && s.produced == multiset{} && s.consumed == multiset{} && s.faults == 0 && s.respins == 0
    && forall t :: t in s.threads ==> s.threads[t].pc.Top?
  }

  // ---------------------------------------------------------------- invariant

  /** A producer that has taken a free slot and not yet filled it, and one that has filled it and not yet told. */
  ghost function Reserving(): Thread -> nat {
    (th: Thread) => if th.role.Producer? && (th.pc.Lock? || th.pc.Inside?) then 1 else 0
  }

  ghost function Filling(): Thread -> nat {
    (th: Thread) => if th.role.Producer? && (th.pc.Leave? || th.pc.Post?) then 1 else 0
  }

  /** The same for a consumer and a filled slot. */
  ghost function Claiming(): Thread -> nat {
    (th: Thread) => if th.role.Consumer? && (th.pc.Lock? || th.pc.Inside?) then 1 else 0
  }

  ghost function Draining(): Thread -> nat {
    (th: Thread) => if th.role.Consumer? && (th.pc.Leave? || th.pc.Post?) then 1 else 0
  }

  /** Insertions and removals still to come. */
  ghost function ToInsert(): Thread -> nat {
    (th: Thread) => if th.role.Producer? then Ahead(th) else 0
  }

  ghost function ToRemove(): Thread -> nat {
    (th: Thread) => if th.role.Consumer? then Ahead(th) else 0
  }

  function Ahead(th: Thread): nat {
    if (th.pc.Leave? || th.pc.Post?) && th.left > 0 then th.left - 1 else th.left
  }

  /** Every slot is free, promised to a producer, filled, or emptied but not yet announced; every filled
      slot is announced, promised to a consumer, or not yet announced. */
  ghost predicate SlotsCounted(s: State) {
    && s.full + Total(s.threads, Reserving()) + |s.buffer| + Total(s.threads, Draining()) == s.size
    && s.empty + Total(s.threads, Claiming()) + Total(s.threads, Filling()) == |s.buffer|
  }

  predicate Holds(pc: Pc) {
    pc.Held? || pc.Inside? || pc.Leave?
  }

  ghost predicate MutexExact(s: State) {
    && (s.mutex.Some? ==> s.mutex.value in s.threads)
    && forall t :: t in s.threads ==>
         && (Holds(s.threads[t].pc) <==> s.mutex == Some(t))
         && (s.threads[t].pc.Done? ==> s.threads[t].left == 0)
         && (!s.threads[t].pc.Top? && !s.threads[t].pc.Done? ==> s.threads[t].left > 0)
  }

  ghost predicate Conserved(s: State) {
    s.produced == s.consumed + multiset(s.buffer)
  }

  ghost predicate Inv(s: State) {
    SlotsCounted(s) && MutexExact(s) && Conserved(s) && s.faults == 0 && s.respins == 0
  }

  /** As many removals as insertions will have happened in the end. */
  ghost predicate Balanced(s: State) {
    Total(s.threads, ToInsert()) + |s.buffer| == Total(s.threads, ToRemove())
  }

  lemma InitInv(s: State)
    requires Init(s)
    ensures Inv(s)
  {
    forall t | t in s.threads
      ensures Reserving()(s.threads[t]) == Filling()(s.threads[t]) == 0
      ensures Claiming()(s.threads[t]) == Draining()(s.threads[t]) == 0
    {
    }
    TotalNone(s.threads, Reserving());
    TotalNone(s.threads, Filling());
    TotalNone(s.threads, Claiming());
    TotalNone(s.threads, Draining());
  }

  /** Only the moving thread's entry changes. */
  lemma OneThreadMoves(s: State, t: int, value: int)
    requires Enabled(s, t)
    ensures var s' := Step(s, t, value);
      t in s'.threads && s'.threads == s.threads[t := s'.threads[t]] && s'.threads[t].role == s.threads[t].role
  {
  }

  /** How each count moves with the thread. */
  lemma Recount(m: map<int, Thread>, t: int, th: Thread)
    requires t in m
    ensures Total(m[t := th], Reserving()) == Total(m, Reserving()) - Reserving()(m[t]) + Reserving()(th)
    ensures Total(m[t := th], Filling()) == Total(m, Filling()) - Filling()(m[t]) + Filling()(th)
    ensures Total(m[t := th], Claiming()) == Total(m, Claiming()) - Claiming()(m[t]) + Claiming()(th)
    ensures Total(m[t := th], Draining()) == Total(m, Draining()) - Draining()(m[t]) + Draining()(th)
    ensures Reserving()(m[t]) <= Total(m, Reserving()) && Claiming()(m[t]) <= Total(m, Claiming())
  {
    TotalPut(m, Reserving(), t, th);
    TotalPut(m, Filling(), t, th);
    TotalPut(m, Claiming(), t, th);
    TotalPut(m, Draining(), t, th);
  }

  /** A producer inside the critical section finds room and a consumer finds a value, although other
      threads may have run between its wake-up and its taking of the mutex. */
  lemma NoRace(s: State, t: int)
    requires SlotsCounted(s) && t in s.threads && s.threads[t].pc.Inside?
    ensures s.threads[t].role.Producer? ==> |s.buffer| < s.size
    ensures s.threads[t].role.Consumer? ==> |s.buffer| > 0
  {
    Recount(s.threads, t, s.threads[t]);
  }

  lemma SlotsKeptOutside(s: State, t: int, value: int)
    requires SlotsCounted(s) && Enabled(s, t) && !s.threads[t].pc.Inside?
    ensures SlotsCounted(Step(s, t, value))
  {
    ThreadAfter(s, t, value);
    Recount(s.threads, t, Moved(s.threads[t], s.recheck, value));
  }

  lemma SlotsKept(s: State, t: int, value: int)
    requires SlotsCounted(s) && Enabled(s, t)
    ensures SlotsCounted(Step(s, t, value))
  {
    if s.threads[t].pc.Inside? {
      NoRace(s, t);
      Recount(s.threads, t, s.threads[t].(pc := Leave));
      assert Step(s, t, value) == if s.threads[t].role.Producer? then Deposit(s, t) else Withdraw(s, t);
    } else {
      SlotsKeptOutside(s, t, value);
    }
  }

  lemma MutexKept(s: State, t: int, value: int)
    requires MutexExact(s) && Enabled(s, t)
    ensures MutexExact(Step(s, t, value))
  {
    OneThreadMoves(s, t, value);
  }

  lemma ValuesKept(s: State, t: int, value: int)
    requires SlotsCounted(s) && Conserved(s) && Enabled(s, t) && s.threads[t].pc.Inside?
    ensures var s' := Step(s, t, value);
      Conserved(s') && s'.faults == s.faults && s'.respins == s.respins && s'.threads[t] == s.threads[t].(pc := Leave)
    ensures |Step(s, t, value).buffer| == |s.buffer| + if s.threads[t].role.Producer? then 1 else -1
  {
    NoRace(s, t);
    if s.threads[t].role.Consumer? {
      assert Step(s, t, value) == Withdraw(s, t);
      WithdrawKeeps(s, t);
    } else {
      assert Step(s, t, value) == Deposit(s, t);
      DepositKeeps(s, t);
    }
  }

  lemma DepositKeeps(s: State, t: int)
    requires t in s.threads && Conserved(s) && |s.buffer| < s.size
    ensures var s' := Deposit(s, t);
      Conserved(s') && s' == To(s, t, Leave).(buffer := s'.buffer, produced := s'.produced) && |s'.buffer| == |s.buffer| + 1
  {
    assert multiset(s.buffer + [s.threads[t].value]) == multiset(s.buffer) + multiset{s.threads[t].value};
  }

  lemma WithdrawKeeps(s: State, t: int)
    requires t in s.threads && Conserved(s) && |s.buffer| > 0
    ensures var s' := Withdraw(s, t);
      Conserved(s') && s' == To(s, t, Leave).(buffer := s'.buffer, consumed := s'.consumed) && |s'.buffer| == |s.buffer| - 1
  {
    LastTaken(s.buffer);
  }

  lemma LastTaken(b: seq<int>)
    requires b != []
    ensures multiset(b) == multiset(b[..|b| - 1]) + multiset{b[|b| - 1]}
  {
    assert b == b[..|b| - 1] + [b[|b| - 1]];
  }

  /** A producer puts in the value it has drawn last, and a consumer takes out the newest value. */
  lemma ValuesMoved(s: State, t: int, value: int)
    requires SlotsCounted(s) && Enabled(s, t)
    ensures s.threads[t].pc.Top? && s.threads[t].left > 0 ==> Step(s, t, value).threads[t].value == value
    ensures s.threads[t].pc.Inside? && s.threads[t].role.Producer? ==>
      && Step(s, t, value).buffer == s.buffer + [s.threads[t].value]
      && Step(s, t, value).produced == s.produced + multiset{s.threads[t].value}
    ensures s.threads[t].pc.Inside? && s.threads[t].role.Consumer? ==>
      && s.buffer != [] && Step(s, t, value).buffer + [s.buffer[|s.buffer| - 1]] == s.buffer
      && Step(s, t, value).consumed == s.consumed + multiset{s.buffer[|s.buffer| - 1]}
  {
    if s.threads[t].pc.Inside? {
      NoRace(s, t);
    }
  }

  /** Outside the critical section the buffer is not touched. */
  lemma BufferFramed(s: State, t: int, value: int)
    requires Enabled(s, t) && !s.threads[t].pc.Inside?
    ensures var s' := Step(s, t, value);
      && s'.buffer == s.buffer && s'.produced == s.produced && s'.consumed == s.consumed
      && s'.faults == s.faults && s'.respins == s.respins
  {
  }

  lemma StepKeepsInv(s: State, t: int, value: int)
    requires Inv(s) && Enabled(s, t)
    ensures Inv(Step(s, t, value))
  {
    SlotsKept(s, t, value);
    MutexKept(s, t, value);
    if s.threads[t].pc.Inside? {
      ValuesKept(s, t, value);
    } else {
      BufferFramed(s, t, value);
    }
  }

  /** What a step takes off the work ahead of its thread. */
  lemma AheadMoves(s: State, t: int, value: int)
    requires Enabled(s, t) && (s.threads[t].pc.Inside? ==> s.threads[t].left > 0)
    requires s.threads[t].pc.Inside? ==> Step(s, t, value).threads[t] == s.threads[t].(pc := Leave)
    ensures Ahead(Step(s, t, value).threads[t]) == Ahead(s.threads[t]) - if s.threads[t].pc.Inside? then 1 else 0
  {
    if !s.threads[t].pc.Inside? {
      ThreadAfter(s, t, value);
      MovedAhead(s.threads[t], s.recheck, value);
    }
  }

  lemma MovedAhead(th: Thread, recheck: bool, value: int)
    requires !th.pc.Inside?
    ensures Ahead(Moved(th, recheck, value)) == Ahead(th)
  {
  }

  /** What a step outside the critical section does to its thread, whatever the others do. */
  function Moved(th: Thread, recheck: bool, value: int): Thread {
    match th.pc
    case Top => if th.left == 0 then th.(pc := Done) else th.(value := value, pc := if recheck then Held else Wait)
    case Held => th.(pc := Wait)
    case Wait => th.(pc := Lock)
    case Lock => th.(pc := Inside)
    case Leave => th.(pc := Post)
    case Post => th.(left := if th.left > 0 then th.left - 1 else 0, pc := Top)
    case _ => th
  }

  lemma ThreadAfter(s: State, t: int, value: int)
    requires Enabled(s, t) && !s.threads[t].pc.Inside?
    ensures Step(s, t, value).threads == s.threads[t := Moved(s.threads[t], s.recheck, value)]
  {
  }

  lemma StepKeepsBalance(s: State, t: int, value: int)
    requires Inv(s) && Balanced(s) && Enabled(s, t)
    ensures Balanced(Step(s, t, value))
  {
    var th' := Step(s, t, value).threads[t];
    OneThreadMoves(s, t, value);
    if s.threads[t].pc.Inside? {
      ValuesKept(s, t, value);
    } else {
      BufferFramed(s, t, value);
    }
    AheadMoves(s, t, value);
    TotalPut(s.threads, ToInsert(), t, th');
    TotalPut(s.threads, ToRemove(), t, th');
  }

  // ---------------------------------------------------------------- every schedule

  /** A schedule names, step by step, the thread that moves and what rand() would give it. */
  ghost predicate Schedule(ss: seq<State>, es: seq<(int, int)>) {
    && |ss| == |es| + 1 && Init(ss[0])
    && forall i :: 0 <= i < |es| ==> Enabled(ss[i], es[i].0) && ss[i + 1] == Step(ss[i], es[i].0, es[i].1)
  }

  /** Whatever the scheduler does: no overflow, no underflow, no failed re-check, exact semaphores, and
      every value produced is either consumed or in the buffer. */
  lemma {:induction false} EverySchedule(ss: seq<State>, es: seq<(int, int)>, i: nat)
    requires Schedule(ss, es) && i < |ss|
    ensures Inv(ss[i])
    ensures Balanced(ss[0]) ==> Balanced(ss[i])
    decreases i
  {
    if i == 0 {
      InitInv(ss[0]);
    } else {
      EverySchedule(ss, es, i - 1);
      StepKeepsInv(ss[i - 1], es[i - 1].0, es[i - 1].1);
      if Balanced(ss[0]) {
        StepKeepsBalance(ss[i - 1], es[i - 1].0, es[i - 1].1);
      }
    }
  }

  // ---------------------------------------------------------------- progress

  ghost predicate Finished(s: State) {
    forall t :: t in s.threads ==> s.threads[t].pc.Done?
  }

  ghost predicate Stuck(s: State) {
    forall t :: t in s.threads ==> !Enabled(s, t)
  }

  lemma StuckThreadsWait(s: State, t: int)
    requires Inv(s) && Stuck(s) && t in s.threads
    ensures s.threads[t].pc.Done? || s.threads[t].pc.Wait?
  {
    assert !Enabled(s, t);
    if s.mutex.Some? {
      assert !Enabled(s, s.mutex.value);
    }
  }

  /** With room for one value and equally many insertions and removals to come, some thread can move
      until all of them are done. */
  lemma NoDeadlock(s: State)
    requires Inv(s) && Balanced(s) && s.size > 0 && Stuck(s)
    ensures Finished(s) && s.buffer == [] && s.produced == s.consumed && s.full == s.size && s.empty == 0
  {
    Quiet(s);
    forall t | t in s.threads
      ensures s.threads[t].pc.Done?
    {
      StuckThreadsWait(s, t);
      if s.threads[t].pc.Wait? && s.threads[t].role.Producer? {
        StuckProducer(s, t);
      } else if s.threads[t].pc.Wait? {
        StuckConsumer(s, t);
      }
    }
    forall t | t in s.threads
      ensures ToInsert()(s.threads[t]) == ToRemove()(s.threads[t]) == 0
    {
      assert s.threads[t].pc.Done?;
    }
    TotalNone(s.threads, ToInsert());
    TotalNone(s.threads, ToRemove());
  }

  /** Nobody is between a semaphore and the other. */
  lemma Quiet(s: State)
    requires Inv(s) && Stuck(s)
    ensures Total(s.threads, Reserving()) == Total(s.threads, Filling()) == 0
    ensures Total(s.threads, Claiming()) == Total(s.threads, Draining()) == 0
  {
    forall t | t in s.threads
      ensures Reserving()(s.threads[t]) == Filling()(s.threads[t]) == 0
      ensures Claiming()(s.threads[t]) == Draining()(s.threads[t]) == 0
    {
      StuckThreadsWait(s, t);
    }
    TotalNone(s.threads, Reserving());
    TotalNone(s.threads, Filling());
    TotalNone(s.threads, Claiming());
    TotalNone(s.threads, Draining());
  }

  /** A waiting producer means a full buffer, so no consumer is left, so nothing may be left to insert. */
  lemma StuckProducer(s: State, t: int)
    requires Inv(s) && Stuck(s) && s.size > 0 && t in s.threads && s.threads[t].role.Producer? && s.threads[t].pc.Wait?
    requires Total(s.threads, Reserving()) == Total(s.threads, Filling()) == 0
    requires Total(s.threads, Claiming()) == Total(s.threads, Draining()) == 0
    ensures !Balanced(s)
  {
    assert !Enabled(s, t);
    assert s.empty == s.size;
    forall u | u in s.threads
      ensures ToRemove()(s.threads[u]) == 0
    {
      StuckThreadsWait(s, u);
      assert !Enabled(s, u);
    }
    TotalNone(s.threads, ToRemove());
  }

  lemma StuckConsumer(s: State, t: int)
    requires Inv(s) && Stuck(s) && s.size > 0 && t in s.threads && s.threads[t].role.Consumer? && s.threads[t].pc.Wait?
    requires Total(s.threads, Reserving()) == Total(s.threads, Filling()) == 0
    requires Total(s.threads, Claiming()) == Total(s.threads, Draining()) == 0
    ensures !Balanced(s)
  {
    assert !Enabled(s, t);
    assert s.buffer == [] && s.full == s.size;
    forall u | u in s.threads
      ensures ToInsert()(s.threads[u]) == 0
    {
      StuckThreadsWait(s, u);
      assert !Enabled(s, u);
    }
    TotalNone(s.threads, ToInsert());
    TotalSome(s.threads, ToRemove(), t);
  }

  function Rank(pc: Pc): nat {
    match pc
    case Top => 7
    case Held => 6
    case Wait => 5
    case Lock => 4
    case Inside => 3
    case Leave => 2
    case Post => 1
    case Done => 0
  }

  /** An upper bound on the steps a thread has still to take. */
  ghost function Effort(): Thread -> nat {
    (th: Thread) => 8 * th.left + Rank(th.pc)
  }

  lemma ThreadTires(s: State, t: int, value: int)
    requires Enabled(s, t) && !s.threads[t].pc.Inside? && (s.threads[t].pc.Post? ==> s.threads[t].left > 0)
    ensures Effort()(Step(s, t, value).threads[t]) < Effort()(s.threads[t])
  {
    ThreadAfter(s, t, value);
  }

  lemma Tires(s: State, t: int, value: int)
    requires Inv(s) && Enabled(s, t)
    ensures Total(Step(s, t, value).threads, Effort()) < Total(s.threads, Effort())
  {
    OneThreadMoves(s, t, value);
    if s.threads[t].pc.Inside? {
      ValuesKept(s, t, value);
    } else {
      ThreadTires(s, t, value);
    }
    TotalPut(s.threads, Effort(), t, Step(s, t, value).threads[t]);
  }

  /** Every schedule ends: its length is bounded by the work its threads start with, re-checks or not. */
  lemma {:induction false} SchedulesEnd(ss: seq<State>, es: seq<(int, int)>, i: nat)
    requires Schedule(ss, es) && i < |ss|
    ensures Total(ss[i].threads, Effort()) + i <= Total(ss[0].threads, Effort())
    decreases i
  {
    if i > 0 {
      SchedulesEnd(ss, es, i - 1);
      EverySchedule(ss, es, i - 1);
      var s, t, s' := ss[i - 1], es[i - 1].0, ss[i];
      Tires(s, t, es[i - 1].1);
    }
  }
}
