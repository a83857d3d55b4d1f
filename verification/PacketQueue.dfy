/** The ring in use: the kernel fills frames at its head, the user empties them in order, and counters record
    what went in and what was dropped. */
module PacketQueue {
  import opened Basics

  const EFAULT: int := 14
  const EINVAL: int := 22

  /** Sizes in bytes of struct tpacket_stats and of its first field, the total. */
  const STATS_BYTES: nat := 8
  const TOTAL_BYTES: nat := 4

  /** Who owns a frame; a user frame holds a packet and the "losing" flag it was delivered with. */
  datatype Frame = Kernel | User(pkt: int, losing: bool)

  datatype Stats = Stats(packets: nat, drops: nat)

  /** `tail` is where the user reads next. */
  datatype Ring = Ring(frames: seq<Frame>, head: nat, tail: nat, stats: Stats)

  function Succ(i: nat, frameMax: nat): nat {
    if i != frameMax then i + 1 else 0
  }

  /** The ring part of tpacket_rcv, on a packet that passed the filter. */
  function Receive(r: Ring, pkt: int): Ring
    requires r.head < |r.frames|
  {
    if !r.frames[r.head].Kernel? then r.(stats := r.stats.(drops := r.stats.drops + 1))
    else
      Ring(r.frames[r.head := User(pkt, r.stats.drops != 0)], Succ(r.head, |r.frames| - 1), r.tail,
           r.stats.(packets := r.stats.packets + 1))
  }

  /** The user hands the frame it has read back to the kernel. */
  function Release(r: Ring): Ring
    requires r.tail < |r.frames|
  {
    if r.frames[r.tail].Kernel? then r
    else r.(frames := r.frames[r.tail := Kernel], tail := Succ(r.tail, |r.frames| - 1))
  }

  /** Where the k-th frame after `from` is, going round. */
  function Slot(from: nat, k: nat, n: nat): nat {
    if from + k >= n then from + k - n else from + k
  }

  /** The user-owned frames are one cyclic run from `tail` to just before `head`, holding `queue` in order. */
  ghost predicate Holds(r: Ring, queue: seq<int>) {
    && r.head < |r.frames| && r.tail < |r.frames| && |queue| <= |r.frames|
    && r.head == Slot(r.tail, |queue|, |r.frames|)
    && (forall k :: 0 <= k < |queue| ==> r.frames[Slot(r.tail, k, |r.frames|)].User? && r.frames[Slot(r.tail, k, |r.frames|)].pkt == queue[k])
    && (forall k :: |queue| <= k < |r.frames| ==> r.frames[Slot(r.tail, k, |r.frames|)].Kernel?)
  }

  /** A bounded queue, as the specification of the ring. */
  function Enqueue(queue: seq<int>, capacity: nat, pkt: int): seq<int> {
    if |queue| < capacity then queue + [pkt] else queue
  }

  /** The cyclic run determines the queue, so a state shows one arrival order only. */
  lemma QueueUnique(r: Ring, a: seq<int>, b: seq<int>)
    requires Holds(r, a) && Holds(r, b)
    ensures a == b
  {
  }

  /** A frame is taken from the kernel exactly when the queue has room: unread frames are never overwritten. */
  lemma ReceiveEnqueues(r: Ring, queue: seq<int>, pkt: int)
    requires Holds(r, queue)
    ensures r.frames[r.head].Kernel? <==> |queue| < |r.frames|
    ensures Holds(Receive(r, pkt), Enqueue(queue, |r.frames|, pkt))
  {
    var n := |r.frames|;
    if |queue| == n {
      assert r.frames[Slot(r.tail, 0, n)].User?;
    } else {
      assert r.frames[Slot(r.tail, |queue|, n)].Kernel?;
      var r' := Receive(r, pkt);
      forall k | 0 <= k < n
        ensures Slot(r.tail, k, n) != r.head ==> r'.frames[Slot(r.tail, k, n)] == r.frames[Slot(r.tail, k, n)]
        ensures Slot(r.tail, k, n) == r.head <==> k == |queue|
      {
      }
    }
  }

  lemma ReleaseDequeues(r: Ring, queue: seq<int>)
    requires Holds(r, queue)
    ensures r.frames[r.tail].Kernel? <==> queue == []
    ensures queue != [] ==> r.frames[r.tail].pkt == queue[0] && Holds(Release(r), queue[1..])
  {
    var n := |r.frames|;
    if queue == [] {
      assert r.frames[Slot(r.tail, 0, n)].Kernel?;
    } else {
      assert r.frames[Slot(r.tail, 0, n)].User?;
      var r' := Release(r);
      forall k | 0 <= k < n
        ensures Slot(r'.tail, k, n) == (if k == n - 1 then r.tail else Slot(r.tail, k + 1, n))
        ensures k < n - 1 ==> Slot(r.tail, k + 1, n) != r.tail
      {
      }
    }
  }

  class TpacketRing {
    const frames: array<Frame>
    var head: nat
    var frameMax: nat
    var packets: nat
    var drops: nat

    ghost predicate Valid()
      reads this
    {
      frames.Length > 0 && frameMax == frames.Length - 1 && head <= frameMax
    }

    /** `tail` belongs to the user, not to the socket. */
    function View(tail: nat): Ring
      reads this, frames
    {
      Ring(frames[..], head, tail, Stats(packets, drops))
    }

    constructor (frameNr: nat)
      requires frameNr > 0
      ensures Valid() && frames.Length == frameNr && Holds(View(0), []) && packets == drops == 0
    {
      frames := new Frame[frameNr](_ => Kernel);
      head, frameMax, packets, drops := 0, frameNr - 1, 0, 0;
    }

    method TpacketRcv(pkt: int)
      requires Valid()
      modifies this, frames
      ensures Valid() && forall tail :: View(tail) == Receive(old(View(tail)), pkt)
      ensures forall tail, queue :: Holds(old(View(tail)), queue) ==> Holds(View(tail), Enqueue(queue, frames.Length, pkt))
    {
      forall tail, queue | Holds(View(tail), queue)
        ensures Holds(Receive(View(tail), pkt), Enqueue(queue, frames.Length, pkt))
      {
        ReceiveEnqueues(View(tail), queue, pkt);
      }
      if !frames[head].Kernel? {
        drops := drops + 1;
        return;
      }
      var at := head;
      head := if head != frameMax then head + 1 else 0;
      packets := packets + 1;
      frames[at] := User(pkt, drops != 0);
    }

    /** packet_getsockopt, PACKET_STATISTICS, for a caller that asks for `len` bytes: reads and clears; the reported
        total includes the drops.  `copied` bytes of the answer get across; the booleans say whether the copies of the
        answer and of its length succeed. */
    method GetStatistics(len: int, copyOk: bool, lenOk: bool) returns (ret: int, st: Stats, copied: nat)
      modifies this`packets, this`drops
      ensures ret == if len < 0 then -EINVAL else if copyOk && lenOk then 0 else -EFAULT
      ensures if len < 0 then packets == old(packets) && drops == old(drops) else packets == drops == 0
      ensures st == Stats(old(packets) + old(drops), old(drops))
      ensures copied == if len < 0 || !copyOk then 0 else Min(len, STATS_BYTES)
    {
      st := Stats(packets + drops, drops);
      if len < 0 {
        return -EINVAL, st, 0;
      }
      var n := if len > STATS_BYTES then STATS_BYTES else len;
      packets, drops := 0, 0;
      if !copyOk {
        return -EFAULT, st, 0;
      }
      ret := if lenOk then 0 else -EFAULT;
      copied := n;
    }
  }

  // ---------------------------------------------------------------- every run

  /** `passed` counts packets that passed the filter, `reported` what statistics reads told the user, `lost`
      what other reads took; `seen` are the packets the user has read. */
  datatype State = State(ring: Ring, queue: seq<int>, seen: seq<int>, accepted: seq<int>, passed: nat, reported: nat, lost: nat)

  datatype Event = Arrive(pkt: int) | ArriveQueued(dropped: bool) | Take | ReadStats(len: int, copyOk: bool, lenOk: bool)

  /** The call succeeds and was asked for at least the total, which comes first in the answer. */
  predicate Tells(e: Event) {
    e.ReadStats? && e.len >= TOTAL_BYTES && e.copyOk && e.lenOk
  }

  /** `ArriveQueued` is packet_rcv, for a socket without a ring: it has the same counters. */
  ghost predicate Next(s: State, e: Event, s': State) {
    match e
    case Arrive(pkt) =>
      && s.ring.head < |s.ring.frames|
      && s' == s.(ring := Receive(s.ring, pkt), passed := s.passed + 1,
                  queue := Enqueue(s.queue, |s.ring.frames|, pkt),
                  accepted := if s.ring.frames[s.ring.head].Kernel? then s.accepted + [pkt] else s.accepted)
    case ArriveQueued(dropped) =>
      var st := s.ring.stats;
      s' == s.(ring := s.ring.(stats := if dropped then st.(drops := st.drops + 1) else st.(packets := st.packets + 1)),
               passed := s.passed + 1)
    case Take =>
      && s.ring.tail < |s.ring.frames|
      && s' == if s.ring.frames[s.ring.tail].Kernel? then s
               else s.(ring := Release(s.ring), seen := s.seen + [s.ring.frames[s.ring.tail].pkt],
                       queue := if s.queue == [] then [] else s.queue[1..])
    case ReadStats(len, _, _) =>
      var n := s.ring.stats.packets + s.ring.stats.drops;
      s' == if len < 0 then s
            else (if Tells(e) then s.(reported := s.reported + n) else s.(lost := s.lost + n)).(ring := s.ring.(stats := Stats(0, 0)))
  }

  ghost predicate Inv(s: State) {
    && Holds(s.ring, s.queue)
    && s.seen + s.queue == s.accepted
    && s.reported + s.lost + s.ring.stats.packets + s.ring.stats.drops == s.passed
  }

  lemma StepKeepsInv(s: State, e: Event, s': State)
    requires Inv(s) && Next(s, e, s')
    ensures Inv(s')
  {
    match e
    case Arrive(pkt) =>
      ReceiveEnqueues(s.ring, s.queue, pkt);
      assert s.seen + (s.queue + [pkt]) == (s.seen + s.queue) + [pkt];
    case Take =>
      ReleaseDequeues(s.ring, s.queue);
      if s.queue != [] {
        assert (s.seen + [s.queue[0]]) + s.queue[1..] == s.seen + s.queue;
      }
    case _ =>
  }

  ghost predicate Run(ss: seq<State>, es: seq<Event>) {
    && |ss| == |es| + 1 && Holds(ss[0].ring, []) && ss[0] == State(ss[0].ring.(stats := Stats(0, 0)), [], [], [], 0, 0, 0)
    && forall i :: 0 <= i < |es| ==> Next(ss[i], es[i], ss[i + 1])
  }

  /** In every run: one cyclic run of unread frames, packets seen in arrival order without loss or duplication,
      and every packet that passed the filter accounted for exactly once. */
  lemma {:induction false} EveryRun(ss: seq<State>, es: seq<Event>, i: nat)
    requires Run(ss, es) && i < |ss|
    ensures Inv(ss[i])
    decreases i
  {
    if i > 0 {
      EveryRun(ss, es, i - 1);
      StepKeepsInv(ss[i - 1], es[i - 1], ss[i]);
    }
  }

  /** What the user was told plus the current counters is what passed, exactly when every statistics read that
      was accepted with something to report asked for the total and did not fail. */
  lemma {:induction false} ReportsCompleteIff(ss: seq<State>, es: seq<Event>, i: nat)
    requires Run(ss, es) && i < |ss|
    ensures ss[i].reported + ss[i].ring.stats.packets + ss[i].ring.stats.drops == ss[i].passed <==>
      forall k :: 0 <= k < i && es[k].ReadStats? && es[k].len >= 0 && ss[k].ring.stats != Stats(0, 0) ==> Tells(es[k])
    decreases i
  {
    EveryRun(ss, es, i);
    if i > 0 {
      ReportsCompleteIff(ss, es, i - 1);
      EveryRun(ss, es, i - 1);
      assert Next(ss[i - 1], es[i - 1], ss[i]);
    }
  }

  /** A packet that arrives is dropped exactly if it finds as many unread frames as there are. */
  ghost predicate Drops(s: State, e: Event) {
    (e.Arrive? && |s.queue| == |s.ring.frames|) || (e.ArriveQueued? && e.dropped)
  }

  /** An accepted statistics read clears the counters. */
  predicate Clears(e: Event) {
    e.ReadStats? && e.len >= 0
  }

  ghost function DropsSince(ss: seq<State>, es: seq<Event>, n: nat): nat
    requires n <= |es| && n < |ss|
  {
    if n == 0 || Clears(es[n - 1]) then 0 else DropsSince(ss, es, n - 1) + if Drops(ss[n - 1], es[n - 1]) then 1 else 0
  }

  ghost function TakenSince(ss: seq<State>, es: seq<Event>, n: nat): nat
    requires n <= |es| && n < |ss|
  {
    if n == 0 || Clears(es[n - 1]) then 0
    else
      var arrives := es[n - 1].Arrive? || es[n - 1].ArriveQueued?;
      TakenSince(ss, es, n - 1) + if arrives && !Drops(ss[n - 1], es[n - 1]) then 1 else 0
  }

  /** The two counters are the packets dropped and the packets taken since the last accepted statistics read. */
  lemma {:induction false} CountersAre(ss: seq<State>, es: seq<Event>, n: nat)
    requires Run(ss, es) && n < |ss|
    ensures ss[n].ring.stats == Stats(TakenSince(ss, es, n), DropsSince(ss, es, n))
    decreases n
  {
    if n > 0 {
      CountersAre(ss, es, n - 1);
      EveryRun(ss, es, n - 1);
      assert Next(ss[n - 1], es[n - 1], ss[n]);
      if es[n - 1].Arrive? {
        ReceiveEnqueues(ss[n - 1].ring, ss[n - 1].queue, es[n - 1].pkt);
      }
    }
  }

  /** A packet taken into the ring is marked as losing exactly if one has been dropped since the last accepted
      statistics read, and stands in the frame at head. */
  lemma MarkedLosing(ss: seq<State>, es: seq<Event>, k: nat)
    requires Run(ss, es) && k < |es| && es[k].Arrive? && !Drops(ss[k], es[k])
    ensures ss[k].ring.head < |ss[k + 1].ring.frames|
    ensures ss[k + 1].ring.frames[ss[k].ring.head] == User(es[k].pkt, DropsSince(ss, es, k) > 0)
    ensures ss[k + 1].queue == ss[k].queue + [es[k].pkt]
  {
    CountersAre(ss, es, k);
    EveryRun(ss, es, k);
    ReceiveEnqueues(ss[k].ring, ss[k].queue, es[k].pkt);
    assert Next(ss[k], es[k], ss[k + 1]);
  }

  /** A run in which a report is lost: one packet arrives, and the statistics that count it cannot be copied out. */
  lemma ReportLost() returns (ss: seq<State>, es: seq<Event>)
    ensures Run(ss, es) && ss[|es|].passed == 1 && ss[|es|].reported == 0 && ss[|es|].ring.stats == Stats(0, 0)
  {
    var r0 := Ring([Kernel], 0, 0, Stats(0, 0));
    var s0 := State(r0, [], [], [], 0, 0, 0);
    var s1 := State(Receive(r0, 7), [7], [], [7], 1, 0, 0);
    var s2 := s1.(ring := s1.ring.(stats := Stats(0, 0)), lost := 1);
    ss, es := [s0, s1, s2], [Arrive(7), ReadStats(8, false, true)];
    assert Next(s0, es[0], s1) && Next(s1, es[1], s2);
  }

  /** So is one that succeeds for a caller who asked for less than the total. */
  lemma ShortReadLoses() returns (ss: seq<State>, es: seq<Event>)
    ensures Run(ss, es) && es == [Arrive(7), ReadStats(0, true, true)]
    ensures ss[|es|].passed == 1 && ss[|es|].reported == 0 && ss[|es|].ring.stats == Stats(0, 0)
  {
    var r0 := Ring([Kernel], 0, 0, Stats(0, 0));
    var s0 := State(r0, [], [], [], 0, 0, 0);
    var s1 := State(Receive(r0, 7), [7], [], [7], 1, 0, 0);
    var s2 := s1.(ring := s1.ring.(stats := Stats(0, 0)), lost := 1);
    ss, es := [s0, s1, s2], [Arrive(7), ReadStats(0, true, true)];
    assert Next(s0, es[0], s1) && Next(s1, es[1], s2);
  }
}
