/** snull: the packets of one device circulate from its pool through its transmitter to the receive queue of the
    other device and back.  The two directions share nothing, so one direction is modelled. */
module Snull {

  // ---------------------------------------------------------------- the driver

  /** Which of the first `h` packets could, or could not, be given a buffer. */
  ghost function Chosen(skbOk: int -> bool, h: int, ok: bool): set<int> {
    set i | 0 <= i < h && skbOk(i) == ok
  }

  lemma ChosenNone(skbOk: int -> bool)
    ensures |Chosen(skbOk, 0, true)| == |Chosen(skbOk, 0, false)| == 0
  {
  }

  lemma ChosenNext(skbOk: int -> bool, h: nat)
    ensures |Chosen(skbOk, h + 1, skbOk(h))| == |Chosen(skbOk, h, skbOk(h))| + 1
    ensures |Chosen(skbOk, h + 1, !skbOk(h))| == |Chosen(skbOk, h, !skbOk(h))|
  {
    assert Chosen(skbOk, h + 1, skbOk(h)) == Chosen(skbOk, h, skbOk(h)) + {h};
    assert Chosen(skbOk, h + 1, !skbOk(h)) == Chosen(skbOk, h, !skbOk(h));
  }

  /** Moving the first packet of one list to the front of another loses none. */
  lemma Moved(onto: seq<int>, list: seq<int>)
    requires list != []
    ensures multiset([list[0]] + onto) + multiset(list[1..]) == multiset(onto) + multiset(list)
    ensures multiset(list[1..]) + multiset([list[0]] + onto) == multiset(list) + multiset(onto)
  {
    assert list == [list[0]] + list[1..];
  }

  /** One device's private state; lists as sequences, head first. */
  class Priv {
    var ppool: seq<int>
    var rxQueue: seq<int>
    var queueStopped: bool
    var rxIntEnabled: bool
    var rxIntr: bool
    var txIntr: bool
    var rxPackets: nat
    var rxDropped: nat
    var txPackets: nat
    var pollScheduled: bool

    constructor (pool: seq<int>)
      ensures ppool == pool && rxQueue == [] && !queueStopped && rxIntEnabled && !rxIntr && !txIntr && !pollScheduled
    {
      ppool, rxQueue, queueStopped, rxIntEnabled, rxIntr, txIntr, pollScheduled := pool, [], false, true, false, false, false;
    }

    method GetTxBuffer() returns (pkt: int)
      requires ppool != []
      modifies this`ppool, this`queueStopped
      ensures pkt == old(ppool)[0] && ppool == old(ppool)[1..]
      ensures queueStopped == (old(queueStopped) || ppool == [])
    {
      pkt := ppool[0];
      ppool := ppool[1..];
      if ppool == [] {
        queueStopped := true;
      }
    }

    /** Uninterrupted: wakes the queue exactly when the pool had run dry. */
    method ReleaseBuffer(pkt: int)
      modifies this`ppool, this`queueStopped
      ensures ppool == [pkt] + old(ppool)
      ensures queueStopped == (old(queueStopped) && old(ppool) != [])
    {
      var empty := ppool == [];
      ppool := [pkt] + ppool;
      if queueStopped && empty {
        queueStopped := false;
      }
    }

    method EnqueueBuf(pkt: int)
      modifies this`rxQueue
      ensures rxQueue == [pkt] + old(rxQueue)
    {
      rxQueue := [pkt] + rxQueue;
    }

    /** 0 stands for the null pointer that an empty queue gives. */
    method DequeueBuf() returns (pkt: int)
      modifies this`rxQueue
      ensures if old(rxQueue) == [] then pkt == 0 && rxQueue == [] else [pkt] + rxQueue == old(rxQueue)
    {
      pkt := 0;
      if rxQueue != [] {
        pkt := rxQueue[0];
        rxQueue := rxQueue[1..];
      }
    }

    /** Both handlers take the status word and clear it; a transmission counts once. */
    method RegularInterrupt(peer: Priv, skbOk: bool)
      requires peer != this
      modifies this, peer`ppool, peer`queueStopped
      ensures !rxIntr && !txIntr && ppool == old(ppool) && queueStopped == old(queueStopped) && rxIntEnabled == old(rxIntEnabled)
      ensures txPackets == old(txPackets) + if old(txIntr) then 1 else 0
      ensures if old(rxIntr) && old(rxQueue) != []
        then rxQueue == old(rxQueue)[1..] && peer.ppool == [old(rxQueue)[0]] + old(peer.ppool)
             && peer.queueStopped == (old(peer.queueStopped) && old(peer.ppool) != [])
             && rxPackets == old(rxPackets) + (if skbOk then 1 else 0) && rxDropped == old(rxDropped) + (if skbOk then 0 else 1)
        else rxQueue == old(rxQueue) && peer.ppool == old(peer.ppool) && peer.queueStopped == old(peer.queueStopped)
             && rxPackets == old(rxPackets) && rxDropped == old(rxDropped)
      ensures multiset(peer.ppool) + multiset(rxQueue) == multiset(old(peer.ppool)) + multiset(old(rxQueue))
      ensures old(peer.ppool == [] ==> peer.queueStopped) ==> (peer.ppool == [] ==> peer.queueStopped)
    {
      var rx, tx := rxIntr, txIntr;
      rxIntr, txIntr := false, false;
      var pkt: seq<int> := [];
      if rx && rxQueue != [] {
        pkt := [rxQueue[0]];
        rxQueue := rxQueue[1..];
        if skbOk {
          rxPackets := rxPackets + 1;
        } else {
          rxDropped := rxDropped + 1;
        }
      }
      if tx {
        txPackets := txPackets + 1;
      }
      if pkt != [] {
        Moved(peer.ppool, old(rxQueue));
        peer.ReleaseBuffer(pkt[0]);
      }
    }

    method NapiInterrupt()
      modifies this
      ensures !rxIntr && !txIntr && ppool == old(ppool) && rxQueue == old(rxQueue) && queueStopped == old(queueStopped)
      ensures rxIntEnabled == (old(rxIntEnabled) && !old(rxIntr)) && pollScheduled == (old(pollScheduled) || old(rxIntr))
      ensures txPackets == old(txPackets) + if old(txIntr) then 1 else 0
      ensures rxPackets == old(rxPackets) && rxDropped == old(rxDropped)
    {
      var rx, tx := rxIntr, txIntr;
      rxIntr, txIntr := false, false;
      if rx {
        rxIntEnabled := false;
        pollScheduled := true;
      }
      if tx {
        txPackets := txPackets + 1;
      }
    }

    /** Packets go back to the peer's pool whether or not a buffer for them could be had; `skbOk(i)` says so for
        the i-th.  Polling stops only at the quota or with the queue empty, and then interrupts are back on. */
    method Poll(peer: Priv, quota: nat, skbOk: int -> bool) returns (more: bool)
      requires peer != this
      modifies this, peer`ppool, peer`queueStopped
      ensures more == (rxQueue != []) && (more ==> rxPackets == old(rxPackets) + quota && rxIntEnabled == old(rxIntEnabled))
      ensures !more ==> rxIntEnabled && !pollScheduled
      ensures rxPackets <= old(rxPackets) + quota
      ensures |rxQueue| <= |old(rxQueue)| && rxQueue == old(rxQueue)[|old(rxQueue)| - |rxQueue|..]
      ensures rxPackets == old(rxPackets) + |Chosen(skbOk, |old(rxQueue)| - |rxQueue|, true)|
      ensures rxDropped == old(rxDropped) + |Chosen(skbOk, |old(rxQueue)| - |rxQueue|, false)|
      ensures multiset(peer.ppool) + multiset(rxQueue) == multiset(old(peer.ppool)) + multiset(old(rxQueue))
      ensures old(peer.ppool == [] ==> peer.queueStopped) ==> (peer.ppool == [] ==> peer.queueStopped)
      ensures ppool == old(ppool) && queueStopped == old(queueStopped)
    {
      var npackets, i := 0, 0;
      ChosenNone(skbOk);
      while npackets < quota && rxQueue != []
        invariant npackets <= quota && rxPackets == old(rxPackets) + npackets && i == |old(rxQueue)| - |rxQueue|
        invariant |rxQueue| <= |old(rxQueue)| && rxQueue == old(rxQueue)[|old(rxQueue)| - |rxQueue|..]
        invariant rxPackets == old(rxPackets) + |Chosen(skbOk, i, true)| && rxDropped == old(rxDropped) + |Chosen(skbOk, i, false)|
        invariant multiset(peer.ppool) + multiset(rxQueue) == multiset(old(peer.ppool)) + multiset(old(rxQueue))
        invariant old(peer.ppool == [] ==> peer.queueStopped) ==> (peer.ppool == [] ==> peer.queueStopped)
        invariant ppool == old(ppool) && queueStopped == old(queueStopped) && rxIntEnabled == old(rxIntEnabled)
        invariant pollScheduled == old(pollScheduled)
        decreases |rxQueue|
      {
        ChosenNext(skbOk, i);
        PollOne(peer, skbOk(i));
        if skbOk(i) {
          npackets := npackets + 1;
        }
        i := i + 1;
      }
      more := rxQueue != [];
      if !more {
        pollScheduled := false;
        rxIntEnabled := true;
      }
    }

    /** One packet of the poll loop: counted as received or dropped, and put back either way. */
    method PollOne(peer: Priv, skbOk: bool)
      requires peer != this && rxQueue != []
      modifies this`rxQueue, this`rxPackets, this`rxDropped, peer`ppool, peer`queueStopped
      ensures rxQueue == old(rxQueue)[1..]
      ensures rxPackets == old(rxPackets) + (if skbOk then 1 else 0) && rxDropped == old(rxDropped) + if skbOk then 0 else 1
      ensures multiset(peer.ppool) + multiset(rxQueue) == multiset(old(peer.ppool)) + multiset(old(rxQueue))
      ensures peer.ppool != []
    {
      Moved(peer.ppool, rxQueue);
      var pkt := DequeueBuf();
      assert pkt == old(rxQueue)[0] && rxQueue == old(rxQueue)[1..];
      if !skbOk {
        rxDropped := rxDropped + 1;
      } else {
        rxPackets := rxPackets + 1;
      }
      peer.ReleaseBuffer(pkt);
    }

    /** snull_hw_tx on a packet long enough, lockup simulation off: the buffer goes to the peer, which is
        interrupted if it has its interrupts on; then this device gets its transmit interrupt. */
    method HwTx(peer: Priv, napi: bool, skbOk: bool)
      requires peer != this && ppool != []
      modifies this, peer
      ensures multiset(ppool) + multiset(peer.rxQueue) == multiset(old(ppool)) + multiset(old(peer.rxQueue))
      ensures multiset(peer.ppool) + multiset(rxQueue) == multiset(old(peer.ppool)) + multiset(old(rxQueue))
      ensures !old(queueStopped) ==> (ppool == [] ==> queueStopped)
      ensures old(peer.ppool == [] ==> peer.queueStopped) ==> (peer.ppool == [] ==> peer.queueStopped)
      ensures txPackets == old(txPackets) + 1
      ensures if !napi && old(peer.rxIntEnabled)
        then ppool == old(ppool) && peer.rxQueue == old(peer.rxQueue)
             && peer.rxPackets == old(peer.rxPackets) + (if skbOk then 1 else 0)
             && peer.rxDropped == old(peer.rxDropped) + (if skbOk then 0 else 1)
        else ppool == old(ppool)[1..] && peer.rxQueue == [old(ppool)[0]] + old(peer.rxQueue)
      ensures napi && old(peer.rxIntEnabled) ==> peer.pollScheduled && !peer.rxIntEnabled
    {
      HandOver(peer);
      Deliver(peer, napi, skbOk);
      txIntr := true;
      Interrupt(peer, napi, skbOk);
    }

    /** The peer is interrupted, if it has its interrupts on, with the packet first in its queue. */
    method Deliver(peer: Priv, napi: bool, skbOk: bool)
      requires peer != this && peer.rxQueue != []
      modifies peer, this`ppool, this`queueStopped
      ensures peer.ppool == old(peer.ppool) && peer.queueStopped == old(peer.queueStopped)
      ensures if !napi && old(peer.rxIntEnabled)
        then ppool == [old(peer.rxQueue)[0]] + old(ppool) && peer.rxQueue == old(peer.rxQueue)[1..]
             && peer.rxPackets == old(peer.rxPackets) + (if skbOk then 1 else 0)
             && peer.rxDropped == old(peer.rxDropped) + (if skbOk then 0 else 1)
        else ppool == old(ppool) && peer.rxQueue == old(peer.rxQueue)
      ensures napi && old(peer.rxIntEnabled) ==> peer.pollScheduled && !peer.rxIntEnabled
      ensures multiset(ppool) + multiset(peer.rxQueue) == multiset(old(ppool)) + multiset(old(peer.rxQueue))
      ensures old(ppool == [] ==> queueStopped) ==> (ppool == [] ==> queueStopped)
    {
      if peer.rxIntEnabled {
        peer.rxIntr := true;
        peer.Interrupt(this, napi, skbOk);
      }
    }

    /** A buffer is taken from the pool and put into the peer's receive queue. */
    method HandOver(peer: Priv)
      requires peer != this && ppool != []
      modifies this`ppool, this`queueStopped, peer`rxQueue
      ensures ppool == old(ppool)[1..] && peer.rxQueue == [old(ppool)[0]] + old(peer.rxQueue)
      ensures queueStopped == (old(queueStopped) || ppool == [])
      ensures multiset(ppool) + multiset(peer.rxQueue) == multiset(old(ppool)) + multiset(old(peer.rxQueue))
    {
      Moved(peer.rxQueue, ppool);
      var pkt := GetTxBuffer();
      peer.EnqueueBuf(pkt);
    }

    /** snull_interrupt, which is one of the two handlers. */
    method Interrupt(peer: Priv, napi: bool, skbOk: bool)
      requires peer != this
      modifies this, peer`ppool, peer`queueStopped
      ensures ppool == old(ppool) && queueStopped == old(queueStopped)
      ensures txPackets == old(txPackets) + if old(txIntr) then 1 else 0
      ensures if !napi && old(rxIntr) && old(rxQueue) != []
        then rxQueue == old(rxQueue)[1..] && peer.ppool == [old(rxQueue)[0]] + old(peer.ppool)
             && rxPackets == old(rxPackets) + (if skbOk then 1 else 0) && rxDropped == old(rxDropped) + (if skbOk then 0 else 1)
        else rxQueue == old(rxQueue) && peer.ppool == old(peer.ppool) && peer.queueStopped == old(peer.queueStopped)
      ensures napi ==> rxIntEnabled == (old(rxIntEnabled) && !old(rxIntr)) && pollScheduled == (old(pollScheduled) || old(rxIntr))
      ensures multiset(peer.ppool) + multiset(rxQueue) == multiset(old(peer.ppool)) + multiset(old(rxQueue))
      ensures old(peer.ppool == [] ==> peer.queueStopped) ==> (peer.ppool == [] ==> peer.queueStopped)
    {
      if napi {
        NapiInterrupt();
      } else {
        RegularInterrupt(peer, skbOk);
      }
    }
  }

  // ---------------------------------------------------------------- one direction, step by step

  /** The packets of one device: `flight` is the other device's receive queue, `tx` and `held` packets in the hands
      of the transmitter and of receivers, `waking` those that receivers have put back while they have still to look
      whether to wake the queue.  `next` is each packet's link, 0 for null; `oops` a packet taken from an empty pool. */
  datatype Channel = Channel(pool: seq<int>, flight: seq<int>, tx: multiset<int>, held: multiset<int>,
                             waking: multiset<int>, stopped: bool, next: map<int, int>, oops: bool)

  datatype Event =
    | TxGet               // snull_get_tx_buffer, called only on a running queue, one at a time
    | TxEnqueue(pkt: int)
    | RxDequeue
    | Release(pkt: int)   // the locked half of snull_release_buffer
    | Look(pkt: int)      // its unlocked half

  function Head(list: seq<int>): int {
    if list == [] then 0 else list[0]
  }

  function Link(c: Channel, pkt: int): int {
    if pkt in c.next then c.next[pkt] else 0
  }

  predicate Enabled(c: Channel, e: Event) {
    match e
    case TxGet => !c.stopped && c.tx == multiset{}
    case TxEnqueue(pkt) => pkt in c.tx
    case RxDequeue => c.flight != []
    case Release(pkt) => pkt in c.held
    case Look(pkt) => pkt in c.waking
  }

  function Step(c: Channel, e: Event): Channel
    requires Enabled(c, e)
  {
    match e
    case TxGet =>
      if c.pool == [] then c.(oops := true)
      else c.(pool := c.pool[1..], tx := c.tx + multiset{c.pool[0]}, stopped := c.stopped || |c.pool| == 1)
    case TxEnqueue(pkt) =>
      c.(tx := c.tx - multiset{pkt}, flight := [pkt] + c.flight, next := c.next[pkt := Head(c.flight)])
    case RxDequeue => c.(flight := c.flight[1..], held := c.held + multiset{c.flight[0]})
    case Release(pkt) =>
      c.(held := c.held - multiset{pkt}, pool := [pkt] + c.pool, next := c.next[pkt := Head(c.pool)],
         waking := c.waking + multiset{pkt})
    case Look(pkt) =>
      c.(waking := c.waking - multiset{pkt}, stopped := c.stopped && Link(c, pkt) != 0)
  }

  function Everywhere(c: Channel): multiset<int> {
    multiset(c.pool) + multiset(c.flight) + c.tx + c.held
  }

  ghost predicate Run(cs: seq<Channel>, es: seq<Event>) {
    && |cs| == |es| + 1
    && cs[0].pool != [] && 0 !in cs[0].pool && cs[0].flight == []
    && cs[0].tx == cs[0].held == cs[0].waking == multiset{} && !cs[0].stopped && !cs[0].oops
    && forall i :: 0 <= i < |es| ==> Goes(cs[i], es[i], cs[i + 1])
  }

  ghost predicate Goes(c: Channel, e: Event, c': Channel) {
    Enabled(c, e) && c' == Step(c, e)
  }

  lemma Popped(list: seq<int>)
    requires list != []
    ensures multiset(list) == multiset{list[0]} + multiset(list[1..])
  {
    assert list == [list[0]] + list[1..];
  }

  lemma HandMoves(a: multiset<int>, b: multiset<int>, c: multiset<int>, d: multiset<int>, p: int)
    requires p in a
    ensures (multiset{p} + b) + c + (a - multiset{p}) + d == b + c + a + d
    ensures c + (multiset{p} + b) + (a - multiset{p}) + d == c + b + a + d
    ensures (multiset{p} + b) + c + d + (a - multiset{p}) == b + c + d + a
  {
  }

  lemma StepConserves(c: Channel, e: Event)
    requires Enabled(c, e)
    ensures Everywhere(Step(c, e)) == Everywhere(c)
  {
    match e
    case TxGet =>
      if c.pool != [] {
        Popped(c.pool);
      }
    case TxEnqueue(pkt) =>
      Popped([pkt] + c.flight);
      HandMoves(c.tx, multiset(c.flight), multiset(c.pool), c.held, pkt);
    case RxDequeue => Popped(c.flight);
    case Release(pkt) =>
      Popped([pkt] + c.pool);
      HandMoves(c.held, multiset(c.pool), multiset(c.flight), c.tx, pkt);
    case Look(_) =>
  }

  lemma Initially(c: Channel)
    requires c.flight == [] && c.tx == c.held == multiset{}
    ensures Everywhere(c) == multiset(c.pool)
  {
  }

  /** In every interleaving the allocated packets are partitioned among pool, receive queue and hands. */
  lemma {:induction false} EveryRunConserves(cs: seq<Channel>, es: seq<Event>, i: nat)
    requires Run(cs, es) && i < |cs|
    ensures Everywhere(cs[i]) == multiset(cs[0].pool)
    decreases i
  {
    if i == 0 {
      Initially(cs[0]);
    } else {
      EveryRunConserves(cs, es, i - 1);
      assert Goes(cs[i - 1], es[i - 1], cs[i]);
      StepConserves(cs[i - 1], es[i - 1]);
    }
  }

  /** The look that starts a queue whose pool is empty. */
  predicate WakesDry(c: Channel, e: Event) {
    e.Look? && c.stopped && Link(c, e.pkt) == 0 && c.pool == []
  }

  ghost predicate DryIsStopped(c: Channel) {
    (c.pool == [] ==> c.stopped) && !c.oops
  }

  /** Event `g` took the last packet out of the pool, and none has been put back between it and event `k`. */
  ghost predicate Emptied(cs: seq<Channel>, es: seq<Event>, g: int, k: int) {
    0 <= g < k <= |es| < |cs| && es[g].TxGet? && |cs[g].pool| == 1 && forall m :: g < m < k ==> !es[m].Release?
  }

  predicate Links(e: Event, pkt: int) {
    e == Release(pkt) || e == TxEnqueue(pkt)
  }

  /** Event `j` linked the packet in front of an empty list, and it has not been linked anew between that and `k`. */
  ghost predicate LinkedLast(cs: seq<Channel>, es: seq<Event>, pkt: int, j: int, k: int) {
    && 0 <= j < k <= |es| < |cs| && Links(es[j], pkt)
    && (if es[j].Release? then cs[j].pool == [] else cs[j].flight == [])
    && forall m :: j < m < k ==> !Links(es[m], pkt)
  }

  ghost predicate LinkedLastAtAll(cs: seq<Channel>, es: seq<Event>, pkt: int, k: int) {
    exists j :: LinkedLast(cs, es, pkt, j, k)
  }

  /** Before the look at a packet's link, the pool has been emptied, and the packet was last linked in front of an
      empty list: the pool or, sent once more, the receive queue. */
  ghost predicate Overtaken(cs: seq<Channel>, es: seq<Event>, k: int) {
    && 0 <= k < |es| && es[k].Look?
    && (exists g :: Emptied(cs, es, g, k)) && LinkedLastAtAll(cs, es, es[k].pkt, k)
  }

  lemma {:induction false} PoolEmptyIff(cs: seq<Channel>, es: seq<Event>, k: nat)
    requires Run(cs, es) && k < |cs|
    ensures cs[k].pool == [] <==> exists g :: Emptied(cs, es, g, k)
    decreases k
  {
    if k > 0 {
      PoolEmptyIff(cs, es, k - 1);
      var c, e := cs[k - 1], es[k - 1];
      assert Goes(c, e, cs[k]);
      if cs[k].pool == [] {
        if c.pool == [] {
          var g :| Emptied(cs, es, g, k - 1);
          assert Emptied(cs, es, g, k);
        } else {
          assert Emptied(cs, es, k - 1, k);
        }
      }
      if g :| Emptied(cs, es, g, k) {
        assert g == k - 1 || Emptied(cs, es, g, k - 1);
      }
    }
  }

  /** Packets are not null. */
  lemma NoNull(cs: seq<Channel>, es: seq<Event>, i: nat)
    requires Run(cs, es) && i < |cs|
    ensures 0 !in cs[i].pool && 0 !in cs[i].flight
  {
    EveryRunConserves(cs, es, i);
    assert 0 !in Everywhere(cs[i]);
    assert 0 !in multiset(cs[i].pool) && 0 !in multiset(cs[i].flight);
  }

  lemma HeadNull(list: seq<int>)
    requires 0 !in list
    ensures Head(list) == 0 <==> list == []
  {
    if list != [] {
      assert list[0] in list;
    }
  }

  /** One step on a packet's link. */
  lemma LinkStep(c: Channel, e: Event, pkt: int)
    requires Enabled(c, e)
    ensures !Links(e, pkt) ==> Link(Step(c, e), pkt) == Link(c, pkt)
    ensures Links(e, pkt) ==> Link(Step(c, e), pkt) == Head(if e.Release? then c.pool else c.flight)
  {
    match e
    case Release(_) =>
    case TxEnqueue(_) =>
    case _ => assert Step(c, e).next == c.next;
  }

  lemma WakingStep(c: Channel, e: Event, pkt: int)
    requires Enabled(c, e)
    ensures pkt in Step(c, e).waking ==> pkt in c.waking || e == Release(pkt)
  {
    match e
    case Release(_) =>
    case Look(_) =>
    case _ => assert Step(c, e).waking == c.waking;
  }

  /** The same along a run, where packets are not null. */
  lemma LinkAlong(cs: seq<Channel>, es: seq<Event>, pkt: int, k: int)
    requires Run(cs, es) && 0 < k < |cs|
    ensures !Links(es[k - 1], pkt) ==> Link(cs[k], pkt) == Link(cs[k - 1], pkt)
    ensures Links(es[k - 1], pkt) ==>
      (Link(cs[k], pkt) == 0 <==> if es[k - 1].Release? then cs[k - 1].pool == [] else cs[k - 1].flight == [])
  {
    assert Goes(cs[k - 1], es[k - 1], cs[k]);
    LinkStep(cs[k - 1], es[k - 1], pkt);
    NoNull(cs, es, k - 1);
    HeadNull(cs[k - 1].pool);
    HeadNull(cs[k - 1].flight);
  }

  lemma {:induction false} LinkNullIff(cs: seq<Channel>, es: seq<Event>, pkt: int, r: int, k: int)
    requires Run(cs, es) && 0 <= r < k < |cs| && Links(es[r], pkt)
    ensures Link(cs[k], pkt) == 0 <==> LinkedLastAtAll(cs, es, pkt, k)
    decreases k
  {
    LinkAlong(cs, es, pkt, k);
    if Links(es[k - 1], pkt) {
      LinkedNow(cs, es, pkt, k);
    } else {
      LinkNullIff(cs, es, pkt, r, k - 1);
      LinkedEarlier(cs, es, pkt, k);
    }
  }

  lemma LinkedNow(cs: seq<Channel>, es: seq<Event>, pkt: int, k: int)
    requires 0 < k <= |es| < |cs| && Links(es[k - 1], pkt)
    ensures LinkedLastAtAll(cs, es, pkt, k) <==> if es[k - 1].Release? then cs[k - 1].pool == [] else cs[k - 1].flight == []
  {
    if j :| LinkedLast(cs, es, pkt, j, k) {
      assert j == k - 1;
    }
    assert LinkedLast(cs, es, pkt, k - 1, k) <==> if es[k - 1].Release? then cs[k - 1].pool == [] else cs[k - 1].flight == [];
  }

  lemma LinkedEarlier(cs: seq<Channel>, es: seq<Event>, pkt: int, k: int)
    requires 0 < k <= |es| < |cs| && !Links(es[k - 1], pkt)
    ensures LinkedLastAtAll(cs, es, pkt, k) <==> LinkedLastAtAll(cs, es, pkt, k - 1)
  {
    var before := k - 1;
    if j :| LinkedLast(cs, es, pkt, j, before) {
      assert LinkedLast(cs, es, pkt, j, k);
    }
    if j :| LinkedLast(cs, es, pkt, j, k) {
      assert LinkedLast(cs, es, pkt, j, before);
    }
  }

  lemma {:induction false} ReleasedBefore(cs: seq<Channel>, es: seq<Event>, pkt: int, k: nat) returns (r: int)
    requires Run(cs, es) && k < |cs| && pkt in cs[k].waking
    ensures 0 <= r < k && es[r] == Release(pkt)
    decreases k
  {
    assert k > 0;
    assert Goes(cs[k - 1], es[k - 1], cs[k]);
    if pkt in cs[k - 1].waking {
      r := ReleasedBefore(cs, es, pkt, k - 1);
    } else {
      WakingStep(cs[k - 1], es[k - 1], pkt);
      r := k - 1;
    }
  }

  lemma OvertakenIs(cs: seq<Channel>, es: seq<Event>, k: nat)
    requires Run(cs, es) && k < |es| && es[k].Look?
    ensures Overtaken(cs, es, k) <==> cs[k].pool == [] && Link(cs[k], es[k].pkt) == 0
  {
    assert Goes(cs[k], es[k], cs[k + 1]);
    PoolEmptyIff(cs, es, k);
    var r := ReleasedBefore(cs, es, es[k].pkt, k);
    LinkNullIff(cs, es, es[k].pkt, r, k);
  }

  /** A running queue never finds its pool empty, exactly as long as no look is overtaken in this way. */
  lemma DryIsStoppedIff(cs: seq<Channel>, es: seq<Event>)
    requires Run(cs, es)
    ensures (forall i :: 0 <= i < |cs| ==> DryIsStopped(cs[i])) <==> (forall k :: 0 <= k < |es| ==> !Overtaken(cs, es, k))
  {
    if forall k :: 0 <= k < |es| ==> !Overtaken(cs, es, k) {
      forall k | 0 <= k < |es| ensures !WakesDry(cs[k], es[k]) {
        if es[k].Look? {
          OvertakenIs(cs, es, k);
        }
      }
      forall i | 0 <= i < |cs| ensures DryIsStopped(cs[i]) { NeverDry(cs, es, i); }
    }
    if k :| 0 <= k < |es| && Overtaken(cs, es, k) {
      OvertakenIs(cs, es, k);
      assert Goes(cs[k], es[k], cs[k + 1]);
      assert !DryIsStopped(cs[k]) || !DryIsStopped(cs[k + 1]);
    }
  }

  /** After its release a packet is in the pool until it is taken again. */
  lemma {:induction false} PooledOrTaken(cs: seq<Channel>, es: seq<Event>, pkt: int, r: int, k: int)
    requires Run(cs, es) && 0 <= r < k < |cs| && es[r] == Release(pkt)
    ensures pkt in cs[k].pool || exists g :: r < g < k && es[g].TxGet? && pkt in cs[g].pool && pkt !in cs[g + 1].pool
    decreases k
  {
    assert Goes(cs[k - 1], es[k - 1], cs[k]);
    if r < k - 1 {
      PooledOrTaken(cs, es, pkt, r, k - 1);
    }
  }

  /** The packet of an overtaken look has itself left the pool again since it was put back. */
  lemma OvertakenPacketWasTaken(cs: seq<Channel>, es: seq<Event>, k: nat)
    requires Run(cs, es) && Overtaken(cs, es, k)
    ensures exists r, g :: 0 <= r < g < k && es[r] == Release(es[k].pkt) && es[g].TxGet?
                           && es[k].pkt in cs[g].pool && es[k].pkt !in cs[g + 1].pool
  {
    OvertakenIs(cs, es, k);
    assert Goes(cs[k], es[k], cs[k + 1]);
    var r := ReleasedBefore(cs, es, es[k].pkt, k);
    PooledOrTaken(cs, es, es[k].pkt, r, k);
  }

  lemma {:induction false} NeverDry(cs: seq<Channel>, es: seq<Event>, i: nat)
    requires Run(cs, es) && i < |cs| && forall k :: 0 <= k < |es| ==> !WakesDry(cs[k], es[k])
    ensures DryIsStopped(cs[i])
    decreases i
  {
    if i > 0 {
      NeverDry(cs, es, i - 1);
      assert Goes(cs[i - 1], es[i - 1], cs[i]);
      assert !WakesDry(cs[i - 1], es[i - 1]);
    }
  }

  /** Every release is followed at once by its look. */
  ghost predicate ReleasesWhole(es: seq<Event>) {
    forall i :: 0 <= i < |es| && es[i].Release? ==> i + 1 == |es| || es[i + 1] == Look(es[i].pkt)
  }

  /** So with an uninterrupted snull_release_buffer the pool is never found empty. */
  lemma {:induction false} WholeReleasesAreSafe(cs: seq<Channel>, es: seq<Event>, i: nat)
    requires Run(cs, es) && ReleasesWhole(es) && i < |cs|
    ensures DryIsStopped(cs[i])
    ensures if i > 0 && es[i - 1].Release? then cs[i].waking == multiset{es[i - 1].pkt} && cs[i].pool != [] else cs[i].waking == multiset{}
    decreases i
  {
    if i > 0 {
      WholeReleasesAreSafe(cs, es, i - 1);
      var c, e := cs[i - 1], es[i - 1];
      assert Goes(c, e, cs[i]);
      if i > 1 && es[i - 2].Release? {
        assert e == Look(es[i - 2].pkt);
      }
    }
  }

  lemma RunExtends(cs: seq<Channel>, es: seq<Event>, e: Event)
    requires Run(cs, es) && Enabled(cs[|es|], e)
    ensures Run(cs + [Step(cs[|es|], e)], es + [e])
  {
    var cs', es' := cs + [Step(cs[|es|], e)], es + [e];
    forall i | 0 <= i < |es'|
      ensures Goes(cs'[i], es'[i], cs'[i + 1])
    {
      if i < |es| {
        assert Goes(cs[i], es[i], cs[i + 1]);
      }
    }
  }

  ghost predicate Reachable(c: Channel) {
    exists cs, es :: Run(cs, es) && cs[|es|] == c
  }

  lemma ReachStep(c: Channel, e: Event)
    requires Reachable(c) && Enabled(c, e)
    ensures Reachable(Step(c, e))
  {
    var cs, es :| Run(cs, es) && cs[|es|] == c;
    RunExtends(cs, es, e);
    assert (cs + [Step(c, e)])[|es + [e]|] == Step(c, e);
  }

  lemma PutBack() returns (c: Channel)
    ensures Reachable(c) && c.pool == [1, 2] && c.flight == [] && c.tx == multiset{} && 1 in c.waking && !c.stopped
  {
    c := Channel([1, 2], [], multiset{}, multiset{}, multiset{}, false, map[], false);
    var none: seq<Event> := [];
    assert Run([c], none) && [c][|none|] == c;
    ReachStep(c, TxGet);
    c := Step(c, TxGet);
    ReachStep(c, TxEnqueue(1));
    c := Step(c, TxEnqueue(1));
    ReachStep(c, RxDequeue);
    c := Step(c, RxDequeue);
    ReachStep(c, Release(1));
    c := Step(c, Release(1));
  }

  /** A packet is transmitted, received and put back, and transmitted again before its receiver has looked. */
  lemma PutBackAndSentAgain() returns (c: Channel)
    ensures Reachable(c) && c.pool == [2] && c.flight == [1] && c.tx == multiset{} && 1 in c.waking && !c.stopped && Link(c, 1) == 0
  {
    c := PutBack();
    ReachStep(c, TxGet);
    c := Step(c, TxGet);
    ReachStep(c, TxEnqueue(1));
    c := Step(c, TxEnqueue(1));
  }

  /** Split, it is not: the pool is emptied as well before the receiver looks at the packet's link, which by then is
      the null link of the receive queue. */
  lemma PoolFoundEmpty() returns (c: Channel)
    ensures Reachable(c) && c.oops
  {
    c := PutBackAndSentAgain();
    ReachStep(c, TxGet);
    c := Step(c, TxGet);
    assert WakesDry(c, Look(1));
    ReachStep(c, Look(1));
    c := Step(c, Look(1));
    ReachStep(c, TxEnqueue(2));
    c := Step(c, TxEnqueue(2));
    ReachStep(c, TxGet);
    c := Step(c, TxGet);
  }
}
