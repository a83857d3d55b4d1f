/** A scullp device used by several processes at once.  scullp_mmap takes no lock, so its test of the order and its
    count of the mapping are two steps, and so are, as seen by it, scullp_trim's test of the count and its store of
    the order.  Reads and writes copy the set size before they take the mutex. */
module ScullpProtocol {
  import opened ScullpMmap

  datatype Mutex = Free | Held(t: int) | Trimming

  /** `mapped` are the pages that faults have put into page tables, `mmaps` the calls of mmap that have passed
      their test and not yet counted their mapping, and `calls` the reads and writes under way with the set size
      they have copied.  `strayed` means that somebody has used a slot past the end of a pointer array. */
  datatype State = State(dev: Dev, mapped: set<nat>, mmaps: set<int>, calls: map<int, nat>, mutex: Mutex, strayed: bool)

  /** Above order 0 a page stands for the block it begins. */
  datatype Event =
    | MapTest(t: int)
    | MapCount(t: int)
    | Open
    | Close
    | Fault(offset: nat)
    | Copy(t: int)
    | Lock(t: int)
    | Lengthen(t: int)                                  // appends a list item
    | AddArray(t: int, i: int)                          // a write gives a list item its pointer array
    | Look(t: int, i: int, j: int)                      // a read or write looks at a slot
    | Fill(t: int, i: int, j: int, bytes: seq<char>)    // a write adds a page or changes one
    | Resize(t: int, size: nat)
    | Leave(t: int)                                     // releases the mutex, or gives up waiting for it
    | TrimTest                                          // finds no mapping
    | TrimSet(qset: nat, order: nat)                    // has freed the pages and stores the new geometry

  /** Slot (i, j) lies past the end of the item's array. */
  predicate PastArray(d: Dev, i: int, j: int) {
    0 <= i < |d.items| && d.items[i] != [] && j >= |d.items[i]|
  }

  /** Which slots an event uses, whatever is there. */
  predicate UsesSlot(s: State, e: Event, i: int, j: int) {
    match e
    case Look(_, k, l) => i == k && j == l
    case Fill(_, k, l, _) => i == k && j == l
    case Fault(offset) => s.dev.qset > 0 && offset < s.dev.size && i == offset / PAGE_SIZE / s.dev.qset && j == offset / PAGE_SIZE % s.dev.qset
    case TrimSet(_, _) => 0 <= j < s.dev.qset  // every item, up to the set size
    case _ => false
  }

  ghost predicate Strays(s: State, e: Event) {
    exists i, j :: UsesSlot(s, e, i, j) && PastArray(s.dev, i, j)
  }

  function WithArray(d: Dev, i: int, length: nat): Dev
    requires 0 <= i < |d.items|
  {
    var empty: seq<nat> := seq(length, _ => 0);
    d.(items := d.items[i := empty])
  }

  /** Who may do what, and when: the mutex excludes transfers, faults and trims from each other, and nothing else. */
  predicate Enabled(s: State, e: Event) {
    var d := s.dev;
    match e
    case MapTest(t) => t !in s.mmaps
    case MapCount(t) => t in s.mmaps
    case Open => d.vmas > 0
    case Close => d.vmas > 0
    case Fault(offset) => s.mutex.Free? && d.vmas > 0
    case Copy(t) => t !in s.calls
    case Lock(t) => t in s.calls && s.mutex.Free?
    case Lengthen(t) => s.mutex == Held(t)
    case AddArray(t, i) => s.mutex == Held(t) && t in s.calls && 0 <= i < |d.items| && d.items[i] == []
    case Look(t, i, j) => s.mutex == Held(t) && t in s.calls && 0 <= i < |d.items| && d.items[i] != [] && 0 <= j < s.calls[t]
    case Fill(t, i, j, bytes) =>
      s.mutex == Held(t) && t in s.calls && 0 <= i < |d.items| && d.items[i] != [] && 0 <= j < s.calls[t] && |bytes| == PAGE_SIZE
    case Resize(t, size) => s.mutex == Held(t) && d.size <= size
    case Leave(t) => t in s.calls
    case TrimTest => s.mutex.Free? && d.vmas == 0
    case TrimSet(qset, order) => s.mutex.Trimming? && qset > 0
  }

  function Step(s: State, e: Event): State
    requires Enabled(s, e)
  {
    var d := s.dev;
    match e
    case MapTest(t) => if d.order == 0 then s.(mmaps := s.mmaps + {t}) else s
    case MapCount(t) => s.(dev := d.(vmas := d.vmas + 1), mmaps := s.mmaps - {t})
    case Open => s.(dev := d.(vmas := d.vmas + 1))
    case Close => s.(dev := d.(vmas := d.vmas - 1), mapped := if d.vmas == 1 then {} else s.mapped)
    case Fault(offset) =>
      if offset >= d.size || d.qset == 0 || PageNo(d, offset / PAGE_SIZE) == 0 then s
      else s.(mapped := s.mapped + {PageNo(d, offset / PAGE_SIZE)})
    case Copy(t) => s.(calls := s.calls[t := d.qset])
    case Lock(t) => s.(mutex := Held(t))
    case Lengthen(_) => s.(dev := d.(items := d.items + [[]]))
    case AddArray(t, i) => s.(dev := WithArray(d, i, s.calls[t]))
    case Look(_, _, _) => s
    case Fill(_, i, j, bytes) => if j < |d.items[i]| then s.(dev := Put(d, i, j, bytes)) else s
    case Resize(_, size) => s.(dev := d.(size := size))
    case Leave(t) => s.(mutex := if s.mutex == Held(t) then Free else s.mutex, calls := s.calls - {t})
    case TrimTest => s.(mutex := Trimming)
    case TrimSet(qset, order) => s.(dev := Dev([[]], qset, order, 0, map[], d.next, d.vmas), mutex := Free)
  }

  /** From a strayed state anything could follow. */
  ghost predicate Next(s: State, e: Event, s': State) {
    Enabled(s, e) && if s.strayed || Strays(s, e) then s'.strayed else s' == Step(s, e)
  }

  ghost predicate Run(ss: seq<State>, es: seq<Event>) {
    && |ss| == |es| + 1
    && ss[0].dev == Dev([[]], ss[0].dev.qset, ss[0].dev.order, 0, map[], 1, 0) && ss[0].dev.qset > 0
    && ss[0] == State(ss[0].dev, {}, {}, map[], Free, false)
    && forall i :: 0 <= i < |es| ==> Next(ss[i], es[i], ss[i + 1])
  }

  // ---------------------------------------------------------------- mapped pages

  ghost predicate Inv(s: State) {
    && !s.strayed && Linked(s.dev)
    && (forall p :: p in s.mapped ==> p in s.dev.pages)
    && (s.dev.vmas == 0 || s.mutex.Trimming? ==> s.mapped == {})
    && (forall t :: t in s.calls ==> s.calls[t] > 0)
  }

  lemma FaultKeeps(s: State, e: Event)
    requires Inv(s) && Enabled(s, e) && e.Fault?
    ensures Inv(Step(s, e))
  {
    assert SlotOk(s.dev, e.offset / PAGE_SIZE / s.dev.qset, e.offset / PAGE_SIZE % s.dev.qset);
  }

  lemma StepKeepsInv(s: State, e: Event)
    requires Inv(s) && Enabled(s, e)
    ensures Inv(Step(s, e))
  {
    match e
    case Fill(_, i, j, bytes) =>
      if j < |s.dev.items[i]| {
        PutKeepsLinked(s.dev, i, j, bytes);
      }
    case Fault(_) => FaultKeeps(s, e);
    case Lengthen(_) => SamePagesLinked(s.dev, Step(s, e).dev);
    case AddArray(_, i) => SamePagesLinked(s.dev, Step(s, e).dev);
    case TrimSet(_, _) =>
    case _ => ReshapeKeepsLinked(s.dev, Step(s, e).dev);
  }

  /** In every run a mapped page stays allocated, no trim frees it, as long as nobody has strayed. */
  lemma {:induction false} MappedPagesLive(ss: seq<State>, es: seq<Event>, i: nat)
    requires Run(ss, es) && i < |ss|
    ensures ss[i].strayed || Inv(ss[i])
    decreases i
  {
    if i > 0 {
      MappedPagesLive(ss, es, i - 1);
      assert Next(ss[i - 1], es[i - 1], ss[i]);
      if !ss[i].strayed {
        StepKeepsInv(ss[i - 1], es[i - 1]);
      }
    }
  }

  lemma MappedStep(s: State, e: Event, p: nat)
    requires Inv(s) && Enabled(s, e) && p in s.mapped && p in Step(s, e).mapped
    ensures var s' := Step(s, e);
      && p in s.dev.pages && p in s'.dev.pages && s'.dev.qset == s.dev.qset
      && s'.dev.pages[p].i == s.dev.pages[p].i && s'.dev.pages[p].j == s.dev.pages[p].j
  {
    StepKeepsInv(s, e);
    assert InUse(s.dev, p);
    if e.Fill? {
      assert SlotOk(s.dev, e.i, e.j);
      assert InUse(s.dev, s.dev.next);
    }
  }

  /** As long as a page stays mapped through a run, it stays allocated and shows the same offsets. */
  lemma {:induction false} MappedPageStays(ss: seq<State>, es: seq<Event>, p: nat, lo: nat, hi: nat)
    requires Run(ss, es) && lo <= hi < |ss| && !ss[hi].strayed && forall i :: lo <= i <= hi ==> p in ss[i].mapped
    ensures p in ss[lo].dev.pages && p in ss[hi].dev.pages && ss[hi].dev.qset == ss[lo].dev.qset
    ensures ss[hi].dev.pages[p].i == ss[lo].dev.pages[p].i && ss[hi].dev.pages[p].j == ss[lo].dev.pages[p].j
    decreases hi
  {
    MappedPagesLive(ss, es, hi);
    if lo < hi {
      assert Next(ss[hi - 1], es[hi - 1], ss[hi]);
      MappedPageStays(ss, es, p, lo, hi - 1);
      MappedPagesLive(ss, es, hi - 1);
      MappedStep(ss[hi - 1], es[hi - 1], p);
    }
  }

  // ---------------------------------------------------------------- straying

  /** Event `a` gave item `i` the array it has at `n`. */
  predicate ArrayBy(es: seq<Event>, a: int, i: int, n: int) {
    0 <= a < n <= |es| && es[a].AddArray? && es[a].i == i && forall m :: a < m < n ==> !es[m].TrimSet?
  }

  lemma ArrayStep(s: State, e: Event, i: nat)
    requires Enabled(s, e) && !Strays(s, e) && !e.TrimSet? && !(e.AddArray? && e.i == i)
    ensures i < |s.dev.items| && s.dev.items[i] != [] ==>
      i < |Step(s, e).dev.items| && |Step(s, e).dev.items[i]| == |s.dev.items[i]|
    ensures i < |Step(s, e).dev.items| && Step(s, e).dev.items[i] != [] ==> i < |s.dev.items| && s.dev.items[i] != []
  {
  }

  lemma {:induction false} MadeBy(ss: seq<State>, es: seq<Event>, i: nat, n: nat) returns (a: int)
    requires Run(ss, es) && n < |ss| && !ss[n].strayed && i < |ss[n].dev.items| && ss[n].dev.items[i] != []
    ensures ArrayBy(es, a, i, n)
    decreases n
  {
    var s, e := ss[n - 1], es[n - 1];
    assert Next(s, e, ss[n]);
    if e.AddArray? && e.i == i {
      a := n - 1;
    } else {
      assert !e.TrimSet?;
      ArrayStep(s, e, i);
      a := MadeBy(ss, es, i, n - 1);
    }
  }

  /** An array is as long as the set size that the write which made it had copied. */
  lemma {:induction false} MadeAsCopied(ss: seq<State>, es: seq<Event>, a: int, i: nat, n: nat)
    requires Run(ss, es) && n < |ss| && !ss[n].strayed && ArrayBy(es, a, i, n)
    ensures es[a].t in ss[a].calls && i < |ss[n].dev.items| && ss[n].dev.items[i] != []
    ensures |ss[n].dev.items[i]| == ss[a].calls[es[a].t]
    decreases n
  {
    var s, e := ss[n - 1], es[n - 1];
    assert Next(s, e, ss[n]);
    MappedPagesLive(ss, es, n - 1);
    if a < n - 1 {
      assert ArrayBy(es, a, i, n - 1);
      MadeAsCopied(ss, es, a, i, n - 1);
      ArrayStep(s, e, i);
    }
  }

  /** Event `k` uses slot (i, j), and the write `a` that made the array of item `i` had copied a set size not
      above `j`. */
  ghost predicate PastCopy(ss: seq<State>, es: seq<Event>, k: int, a: int, i: int, j: int) {
    && 0 <= k < |es| < |ss| && 0 <= i && UsesSlot(ss[k], es[k], i, j) && ArrayBy(es, a, i, k)
    && es[a].t in ss[a].calls && ss[a].calls[es[a].t] <= j
  }

  ghost predicate GoesPastCopy(ss: seq<State>, es: seq<Event>, k: int) {
    exists a, i, j :: PastCopy(ss, es, k, a, i, j)
  }

  lemma StraysAt(ss: seq<State>, es: seq<Event>, k: nat)
    requires Run(ss, es) && k < |es| && !ss[k].strayed
    ensures Strays(ss[k], es[k]) <==> GoesPastCopy(ss, es, k)
  {
    if Strays(ss[k], es[k]) {
      var i, j :| UsesSlot(ss[k], es[k], i, j) && PastArray(ss[k].dev, i, j);
      var a := MadeBy(ss, es, i, k);
      MadeAsCopied(ss, es, a, i, k);
      assert PastCopy(ss, es, k, a, i, j);
    }
    if GoesPastCopy(ss, es, k) {
      var a, i, j :| PastCopy(ss, es, k, a, i, j);
      MadeAsCopied(ss, es, a, i, k);
      assert PastArray(ss[k].dev, i, j);
    }
  }

  /** Nobody strays in a run exactly when no fault, transfer or trim uses a slot at or past the set size that the
      write which made the array had copied. */
  lemma {:induction false} StraysIff(ss: seq<State>, es: seq<Event>, n: nat)
    requires Run(ss, es) && n < |ss|
    ensures !ss[n].strayed <==> forall k :: 0 <= k < n ==> !GoesPastCopy(ss, es, k)
    decreases n
  {
    if n > 0 {
      StraysIff(ss, es, n - 1);
      assert Next(ss[n - 1], es[n - 1], ss[n]);
      if !ss[n - 1].strayed {
        StraysAt(ss, es, n - 1);
      }
    }
  }

  /** The holder of the mutex works by the device's own set size. */
  ghost predicate HolderCurrent(s: State) {
    s.mutex.Held? && s.mutex.t in s.calls ==> s.calls[s.mutex.t] == s.dev.qset
  }

  lemma CurrentStep(s: State, e: Event)
    requires Inv(s) && Shaped(s.dev) && HolderCurrent(s) && Enabled(s, e)
    requires e.Lock? ==> s.calls[e.t] == s.dev.qset
    ensures !Strays(s, e) && Shaped(Step(s, e).dev) && HolderCurrent(Step(s, e))
  {
  }

  /** When every read and write takes the mutex with a set size that is still the device's, nobody strays and
      all arrays have that size. */
  lemma {:induction false} CurrentNeverStrays(ss: seq<State>, es: seq<Event>, n: nat)
    requires Run(ss, es) && n < |ss|
    requires forall k :: 0 <= k < n && es[k].Lock? && es[k].t in ss[k].calls ==> ss[k].calls[es[k].t] == ss[k].dev.qset
    ensures !ss[n].strayed && Valid(ss[n].dev) && HolderCurrent(ss[n])
    decreases n
  {
    if n > 0 {
      CurrentNeverStrays(ss, es, n - 1);
      MappedPagesLive(ss, es, n - 1);
      assert Next(ss[n - 1], es[n - 1], ss[n]);
      CurrentStep(ss[n - 1], es[n - 1]);
      MappedPagesLive(ss, es, n);
    }
  }

  // ---------------------------------------------------------------- the order

  /** What scullp_mmap's test is for. */
  predicate OrderKept(s: State) {
    s.dev.vmas > 0 ==> s.dev.order == 0
  }

  /** Event `i` is the test of a call of mmap that is still to count its mapping at `n`. */
  ghost predicate Tested(es: seq<Event>, t: int, i: int, n: int) {
    0 <= i < n <= |es| && es[i] == MapTest(t) && forall m :: i < m < n ==> es[m] != MapCount(t)
  }

  /** Event `j` stored the order that the device has at `n`. */
  predicate Stored(es: seq<Event>, j: int, n: int) {
    0 <= j < n <= |es| && es[j].TrimSet? && forall m :: j < m < n ==> !es[m].TrimSet?
  }

  /** After that test, at `j`, a trim stored an order other than 0, which the device still has. */
  ghost predicate Between(es: seq<Event>, t: int, i: int, j: int, n: int) {
    Tested(es, t, i, n) && i < j && Stored(es, j, n) && es[j].order != 0
  }

  /** An mmap counts its mapping after an order other than 0 was stored behind its test. */
  ghost predicate CountedLate(es: seq<Event>, k: int) {
    0 <= k < |es| && es[k].MapCount? && exists i, j :: Between(es, es[k].t, i, j, k)
  }

  /** Event `i` is the test of the trim that stores its order at `k`. */
  ghost predicate TrimBegan(es: seq<Event>, i: int, k: int) {
    0 <= i < k <= |es| && es[i].TrimTest? && forall m :: i < m < k ==> !es[m].TrimSet?
  }

  /** Mappings counted, less mappings closed. */
  function Net(es: seq<Event>, i: int, k: int): int
    requires 0 <= i <= k <= |es|
    decreases k
  {
    if i == k then 0
    else Net(es, i, k - 1) + match es[k - 1] case MapCount(_) => 1 case Open => 1 case Close => -1 case _ => 0
  }

  /** A trim stores an order other than 0 although more mappings have been counted than closed since its test. */
  ghost predicate StoredLate(es: seq<Event>, k: int) {
    0 <= k < |es| && es[k].TrimSet? && es[k].order != 0 && exists i :: TrimBegan(es, i, k) && Net(es, i, k) > 0
  }

  lemma {:induction false} TestedBefore(ss: seq<State>, es: seq<Event>, t: int, n: nat) returns (i: int)
    requires Run(ss, es) && n < |ss| && !ss[n].strayed && t in ss[n].mmaps
    ensures Tested(es, t, i, n)
    decreases n
  {
    assert Next(ss[n - 1], es[n - 1], ss[n]);
    if t in ss[n - 1].mmaps {
      i := TestedBefore(ss, es, t, n - 1);
    } else {
      i := n - 1;
    }
  }

  lemma {:induction false} OrderSince(ss: seq<State>, es: seq<Event>, j: int, n: int)
    requires Run(ss, es) && 0 <= n < |ss| && !ss[n].strayed && Stored(es, j, n)
    ensures ss[n].dev.order == es[j].order
    decreases n
  {
    assert Next(ss[n - 1], es[n - 1], ss[n]);
    if j < n - 1 {
      assert Stored(es, j, n - 1);
      OrderSince(ss, es, j, n - 1);
    }
  }

  /** A call of mmap about to count its mapping finds another order exactly after such a trim. */
  lemma {:induction false} OrderAtCount(ss: seq<State>, es: seq<Event>, t: int, n: nat)
    requires Run(ss, es) && n < |ss| && !ss[n].strayed && t in ss[n].mmaps
    ensures ss[n].dev.order != 0 <==> exists i, j :: Between(es, t, i, j, n)
    decreases n
  {
    if i, j :| Between(es, t, i, j, n) {
      OrderSince(ss, es, j, n);
    }
    var s, e := ss[n - 1], es[n - 1];
    assert Next(s, e, ss[n]);
    if ss[n].dev.order != 0 {
      assert t in s.mmaps;
      if e.TrimSet? {
        var i := TestedBefore(ss, es, t, n - 1);
        assert Between(es, t, i, n - 1, n);
      } else {
        OrderAtCount(ss, es, t, n - 1);
        var i, j :| Between(es, t, i, j, n - 1);
        assert Between(es, t, i, j, n);
      }
    }
  }

  lemma {:induction false} TrimBeganBefore(ss: seq<State>, es: seq<Event>, n: nat) returns (i: int)
    requires Run(ss, es) && n < |ss| && !ss[n].strayed && ss[n].mutex.Trimming?
    ensures TrimBegan(es, i, n)
    decreases n
  {
    assert Next(ss[n - 1], es[n - 1], ss[n]);
    if ss[n - 1].mutex.Trimming? {
      i := TrimBeganBefore(ss, es, n - 1);
    } else {
      i := n - 1;
    }
  }

  lemma {:induction false} NetIs(ss: seq<State>, es: seq<Event>, i: int, n: int)
    requires Run(ss, es) && 0 <= i <= n < |ss| && !ss[n].strayed
    ensures ss[n].dev.vmas == ss[i].dev.vmas + Net(es, i, n) && !ss[i].strayed
    decreases n
  {
    if i < n {
      assert Next(ss[n - 1], es[n - 1], ss[n]);
      NetIs(ss, es, i, n - 1);
    }
  }

  /** A trim about to store its order finds the device mapped exactly if the mappings since its test add up. */
  lemma MappedAtStore(ss: seq<State>, es: seq<Event>, n: nat)
    requires Run(ss, es) && n < |ss| && !ss[n].strayed && ss[n].mutex.Trimming?
    ensures ss[n].dev.vmas > 0 <==> exists i :: TrimBegan(es, i, n) && Net(es, i, n) > 0
  {
    var i := TrimBeganBefore(ss, es, n);
    forall k | TrimBegan(es, k, n)
      ensures ss[n].dev.vmas == Net(es, k, n)
    {
      NetIs(ss, es, k, n);
      assert Next(ss[k], es[k], ss[k + 1]);
    }
  }

  /** A mapped device has order 0 throughout a run exactly when neither an mmap counts its mapping after an order
      other than 0 was stored behind its test, nor a trim stores such an order while mappings counted since its
      own test are open. */
  lemma {:induction false} OrderKeptIff(ss: seq<State>, es: seq<Event>, n: nat)
    requires Run(ss, es) && n < |ss| && !ss[n].strayed
    ensures (forall i :: 0 <= i <= n ==> OrderKept(ss[i])) <==>
            (forall k :: 0 <= k < n ==> !CountedLate(es, k) && !StoredLate(es, k))
    decreases n
  {
    if n > 0 {
      assert Next(ss[n - 1], es[n - 1], ss[n]);
      OrderKeptIff(ss, es, n - 1);
      OrderKeptStep(ss, es, n - 1);
    }
  }

  lemma OrderKeptStep(ss: seq<State>, es: seq<Event>, k: nat)
    requires Run(ss, es) && k < |es| && !ss[k + 1].strayed
    ensures OrderKept(ss[k]) ==> (OrderKept(ss[k + 1]) <==> !CountedLate(es, k) && !StoredLate(es, k))
  {
    var s, e := ss[k], es[k];
    assert Next(s, e, ss[k + 1]);
    if e.MapCount? {
      OrderAtCount(ss, es, e.t, k);
    } else if e.TrimSet? {
      MappedAtStore(ss, es, k);
    }
  }

  /** In the second case an mmap has counted its mapping between the test and the store. */
  lemma {:induction false} CountedBetween(ss: seq<State>, es: seq<Event>, i: int, n: int)
    requires Run(ss, es) && 0 <= i < n < |ss| && !ss[n].strayed && es[i].TrimTest? && Net(es, i, n) > 0
    ensures exists m :: i < m < n && es[m].MapCount?
    decreases n
  {
    NetIs(ss, es, i, n - 1);
    assert Next(ss[i], es[i], ss[i + 1]) && Next(ss[n - 1], es[n - 1], ss[n]);
    if !es[n - 1].MapCount? {
      assert i < n - 1;
      NetIs(ss, es, i, n);
      CountedBetween(ss, es, i, n - 1);
    }
  }

  // ---------------------------------------------------------------- runs that go wrong

  ghost predicate Reachable(s: State) {
    !s.strayed && exists ss, es :: Run(ss, es) && ss[|es|] == s
  }

  const Empty := Dev([[]], 1000, 0, 0, map[], 1, 0)

  lemma ReachStart()
    ensures Reachable(State(Empty, {}, {}, map[], Free, false))
  {
    var none: seq<Event> := [];
    var s := State(Empty, {}, {}, map[], Free, false);
    assert Run([s], none) && [s][|none|] == s;
  }

  lemma ReachStep(s: State, e: Event)
    requires Reachable(s) && Enabled(s, e) && !Strays(s, e) && !Step(s, e).strayed
    ensures Reachable(Step(s, e))
  {
    var ss, es :| Run(ss, es) && ss[|es|] == s;
    var s' := Step(s, e);
    var ss', es' := ss + [s'], es + [e];
    forall i | 0 <= i < |es'|
      ensures Next(ss'[i], es'[i], ss'[i + 1])
    {
      if i < |es| {
        assert ss'[i] == ss[i] && ss'[i + 1] == ss[i + 1] && es'[i] == es[i];
        assert Next(ss[i], es[i], ss[i + 1]);
      }
    }
    assert ss'[|es'|] == s';
  }

  /** A trim between the test and the count of an mmap. */
  lemma MappedAtOtherOrder() returns (s: State)
    ensures Reachable(s) && !OrderKept(s)
  {
    ReachStart();
    s := State(Empty, {}, {}, map[], Free, false);
    ReachStep(s, MapTest(0));
    s := Step(s, MapTest(0));
    ReachStep(s, TrimTest);
    s := Step(s, TrimTest);
    ReachStep(s, TrimSet(1000, 1));
    s := Step(s, TrimSet(1000, 1));
    ReachStep(s, MapCount(0));
    s := Step(s, MapCount(0));
  }

  /** An mmap, all of it, between the test and the store of a trim. */
  lemma TrimmedWhileMapped() returns (s: State)
    ensures Reachable(s) && !OrderKept(s)
  {
    ReachStart();
    s := State(Empty, {}, {}, map[], Free, false);
    ReachStep(s, TrimTest);
    s := Step(s, TrimTest);
    ReachStep(s, MapTest(0));
    s := Step(s, MapTest(0));
    ReachStep(s, MapCount(0));
    s := Step(s, MapCount(0));
    ReachStep(s, TrimSet(1000, 1));
    s := Step(s, TrimSet(1000, 1));
  }

  /** A write that copied a set size of 10 makes an array on a device trimmed to 1000 since; the next trim runs
      past its end. */
  lemma TrimRunsPast() returns (s: State)
    ensures Reachable(s) && Enabled(s, TrimSet(1000, 0)) && Strays(s, TrimSet(1000, 0))
  {
    ReachStart();
    s := State(Empty, {}, {}, map[], Free, false);
    s := Trimmed(s, 10);
    ReachStep(s, Copy(0));
    s := Step(s, Copy(0));
    s := Trimmed(s, 1000);
    ReachStep(s, Lock(0));
    s := Step(s, Lock(0));
    ReachStep(s, AddArray(0, 0));
    s := Step(s, AddArray(0, 0));
    ReachStep(s, Leave(0));
    s := Step(s, Leave(0));
    ReachStep(s, TrimTest);
    s := Step(s, TrimTest);
    assert UsesSlot(s, TrimSet(1000, 0), 0, 10) && PastArray(s.dev, 0, 10);
  }

  lemma Trimmed(s: State, qset: nat) returns (s': State)
    requires Reachable(s) && s.mutex.Free? && s.dev == Empty.(qset := s.dev.qset) && qset > 0
    ensures Reachable(s') && s' == s.(dev := Empty.(qset := qset))
  {
    ReachStep(s, TrimTest);
    var s1 := Step(s, TrimTest);
    ReachStep(s1, TrimSet(qset, 0));
    s' := Step(s1, TrimSet(qset, 0));
  }
}
