/** Reads, writes and trims of one scull device by several processes.  scull_read and scull_write copy quantum and
    set size, one after the other, before they take the mutex; scull_write allocates by its copy, and scull_trim
    frees by what the device holds.  This module says exactly when transfers stay in their blocks and trims free
    exactly what there is. */
module ScullProtocol {
  import opened Basics
  import opened ScullGeometry

  /** A call has copied the quantum, or both. */
  datatype Call = HalfRead(quantum: nat) | Copied(shape: Shape)

  /** A trim, holding the mutex, has freed the blocks, and then stored the quantum. */
  datatype Phase = Idle | Freed | QuantumStored

  /** `items` are the list items' pointer arrays, as lengths of the quanta they point to: an empty array is a
      missing one, a 0 a missing quantum.  `broken` means that a transfer has left its block or a trim has not freed
      exactly all blocks. */
  datatype State = State(shape: Shape, items: seq<seq<nat>>, calls: map<int, Call>, phase: Phase, broken: bool)

  /** What can be allocated: list items, a pointer array, a quantum. */
  datatype Memory = Memory(nodes: nat, arrayOk: bool, quantumOk: bool)

  datatype Event =
    | ReadQuantum(t: int)
    | ReadQset(t: int)
    | Transfer(t: int, write: bool, pos: nat, count: nat, memory: Memory)   // under the mutex
    | Leave(t: int)                                                          // interrupted before that
    | TrimFree
    | StoreQuantum(quantum: nat)
    | StoreQset(qset: nat)

  ghost predicate CallsValid(s: State) {
    s.shape.Valid() && forall t :: t in s.calls ==> if s.calls[t].HalfRead? then s.calls[t].quantum > 0 else s.calls[t].shape.Valid()
  }

  predicate Enabled(s: State, e: Event) {
    match e
    case ReadQuantum(t) => t !in s.calls
    case ReadQset(t) => t in s.calls && s.calls[t].HalfRead?
    case Transfer(t, _, _, _, _) => s.phase.Idle? && t in s.calls && s.calls[t].Copied? && s.calls[t].shape.Valid()
    case Leave(t) => t in s.calls
    case TrimFree => s.phase.Idle?
    case StoreQuantum(quantum) => s.phase.Freed? && quantum > 0
    case StoreQset(qset) => s.phase.QuantumStored? && qset > 0
  }

  /** The geometry a transfer works by, and the place it finds. */
  function CopyOf(s: State, e: Event): Shape
    requires e.Transfer? && Enabled(s, e)
  {
    s.calls[e.t].shape
  }

  function Target(s: State, e: Event): Place
    requires e.Transfer? && Enabled(s, e)
  {
    PlaceOf(CopyOf(s, e), e.pos)
  }

  function Bytes(s: State, e: Event): nat
    requires e.Transfer? && Enabled(s, e)
  {
    Amount(CopyOf(s, e), e.pos, e.count)
  }

  function ArrayLen(items: seq<seq<nat>>, i: int): nat {
    if 0 <= i < |items| then |items[i]| else 0
  }

  function Len(items: seq<seq<nat>>, i: int, j: int): nat {
    if 0 <= i < |items| && 0 <= j < |items[i]| then items[i][j] else 0
  }

  /** The list is long enough, or can be made so. */
  predicate Reaches(s: State, e: Event)
    requires e.Transfer? && Enabled(s, e)
  {
    Target(s, e).item < |s.items| + e.memory.nodes
  }

  /** A write gives item `i` its array, of the length it has copied. */
  predicate MakesArray(s: State, e: Event, i: int) {
    e.Transfer? && Enabled(s, e) && e.write && Reaches(s, e) && e.memory.arrayOk && Target(s, e).item == i && ArrayLen(s.items, i) == 0
  }

  /** A write puts a quantum, of the length it has copied, at (i, j). */
  predicate MakesQuantum(s: State, e: Event, i: int, j: int) {
    && e.Transfer? && Enabled(s, e) && e.write && Reaches(s, e) && e.memory.quantumOk
    && Target(s, e).item == i && Target(s, e).index == j
    && (ArrayLen(s.items, i) == 0 ==> e.memory.arrayOk) && Len(s.items, i, j) == 0
  }

  /** A transfer leaves the array, or the quantum, that it finds at its place. */
  predicate Outside(s: State, e: Event)
    requires e.Transfer? && Enabled(s, e)
  {
    var p := Target(s, e);
    || 0 < ArrayLen(s.items, p.item) <= p.index
    || (Bytes(s, e) > 0 && 0 < Len(s.items, p.item, p.index) < p.offset + Bytes(s, e))
  }

  /** A trim goes through every array up to the device's set size: it runs past a shorter one, and leaves behind
      what a longer one holds further on. */
  ghost predicate Misfits(s: State) {
    || (exists i :: 0 < ArrayLen(s.items, i) < s.shape.qset)
    || exists i, j :: s.shape.qset <= j && Len(s.items, i, j) > 0
  }

  ghost predicate Breaks(s: State, e: Event)
    requires Enabled(s, e)
  {
    (e.Transfer? && Outside(s, e)) || (e.TrimFree? && Misfits(s))
  }

  /** scull_follow. */
  function Followed(items: seq<seq<nat>>, item: nat, nodes: nat): seq<seq<nat>> {
    if item < |items| then items else items + seq(Min(nodes, item + 1 - |items|), _ => [])
  }

  function Transferred(s: State, e: Event): seq<seq<nat>>
    requires e.Transfer? && Enabled(s, e)
  {
    var p := Target(s, e);
    var items := Followed(s.items, p.item, e.memory.nodes);
    if !Reaches(s, e) then items
    else
      var zeros: seq<nat> := seq(CopyOf(s, e).qset, _ => 0);
      var items := if MakesArray(s, e, p.item) then items[p.item := zeros] else items;
      if MakesQuantum(s, e, p.item, p.index) && p.index < |items[p.item]|
      then items[p.item := items[p.item][p.index := CopyOf(s, e).quantum]]
      else items
  }

  function Step(s: State, e: Event): State
    requires Enabled(s, e)
  {
    match e
    case ReadQuantum(t) => s.(calls := s.calls[t := HalfRead(s.shape.quantum)])
    case ReadQset(t) => s.(calls := s.calls[t := Copied(Shape(s.calls[t].quantum, s.shape.qset))])
    case Transfer(t, _, _, _, _) => s.(items := Transferred(s, e), calls := s.calls - {t})
    case Leave(t) => s.(calls := s.calls - {t})
    case TrimFree => s.(items := [], phase := Freed)
    case StoreQuantum(quantum) => s.(shape := Shape(quantum, s.shape.qset), phase := QuantumStored)
    case StoreQset(qset) => s.(shape := Shape(s.shape.quantum, qset), phase := Idle)
  }

  /** From a broken state anything could follow. */
  ghost predicate Next(s: State, e: Event, s': State) {
    Enabled(s, e) && if s.broken || Breaks(s, e) then s'.broken else s' == Step(s, e)
  }

  ghost predicate Run(ss: seq<State>, es: seq<Event>) {
    && |ss| == |es| + 1 && ss[0] == State(ss[0].shape, [], map[], Idle, false) && ss[0].shape.Valid()
    && forall i :: 0 <= i < |es| ==> Next(ss[i], es[i], ss[i + 1])
  }

  ghost predicate Inv(s: State) {
    CallsValid(s) && (s.phase.Idle? || s.items == [])
  }

  lemma {:induction false} EveryRun(ss: seq<State>, es: seq<Event>, n: nat)
    requires Run(ss, es) && n < |ss|
    ensures ss[n].broken || Inv(ss[n])
    decreases n
  {
    if n > 0 {
      EveryRun(ss, es, n - 1);
      assert Next(ss[n - 1], es[n - 1], ss[n]);
    }
  }

  // ---------------------------------------------------------------- who made a block

  /** Event `a` gave item `i` the array it has at `n`. */
  predicate ArrayBy(ss: seq<State>, es: seq<Event>, a: int, i: int, n: int) {
    0 <= a < n <= |es| < |ss| && MakesArray(ss[a], es[a], i) && forall m :: a < m < n ==> !es[m].TrimFree?
  }

  /** Event `b` put the quantum at (i, j) that is there at `n`. */
  predicate QuantumBy(ss: seq<State>, es: seq<Event>, b: int, i: int, j: int, n: int) {
    0 <= b < n <= |es| < |ss| && MakesQuantum(ss[b], es[b], i, j) && forall m :: b < m < n ==> !es[m].TrimFree?
  }

  lemma FollowedSame(items: seq<seq<nat>>, item: nat, nodes: nat, i: int)
    ensures ArrayLen(Followed(items, item, nodes), i) == ArrayLen(items, i)
    ensures forall j :: Len(Followed(items, item, nodes), i, j) == Len(items, i, j)
    ensures item < |items| + nodes ==> item < |Followed(items, item, nodes)|
  {
  }

  /** What a transfer that stays inside does to lengths. */
  lemma TransferLens(s: State, e: Event, i: int, j: int)
    requires e.Transfer? && Enabled(s, e) && !Outside(s, e)
    ensures ArrayLen(Transferred(s, e), i) == if MakesArray(s, e, i) then CopyOf(s, e).qset else ArrayLen(s.items, i)
    ensures Len(Transferred(s, e), i, j) == if MakesQuantum(s, e, i, j) then CopyOf(s, e).quantum else Len(s.items, i, j)
  {
    var p := Target(s, e);
    FollowedSame(s.items, p.item, e.memory.nodes, i);
    FollowedSame(s.items, p.item, e.memory.nodes, p.item);
    PlaceBounds(CopyOf(s, e), e.pos);
  }

  /** With memory at hand, a write that stays inside ends with its block in place. */
  lemma WriteHasBlock(s: State, e: Event)
    requires e.Transfer? && Enabled(s, e) && CopyOf(s, e).Valid() && !Outside(s, e) && e.write
    requires e.memory.nodes > Target(s, e).item && e.memory.arrayOk && e.memory.quantumOk
    ensures var p := Target(s, e);
      && ArrayLen(Transferred(s, e), p.item) > p.index
      && Len(Transferred(s, e), p.item, p.index) > 0
      && (Bytes(s, e) > 0 ==> p.offset + Bytes(s, e) <= Len(Transferred(s, e), p.item, p.index))
  {
    var p := Target(s, e);
    TransferLens(s, e, p.item, p.index);
    PlaceBounds(CopyOf(s, e), e.pos);
  }

  lemma StepLens(s: State, e: Event, i: int, j: int)
    requires Enabled(s, e) && !Breaks(s, e) && !e.TrimFree?
    ensures ArrayLen(Step(s, e).items, i) == if MakesArray(s, e, i) then CopyOf(s, e).qset else ArrayLen(s.items, i)
    ensures Len(Step(s, e).items, i, j) == if MakesQuantum(s, e, i, j) then CopyOf(s, e).quantum else Len(s.items, i, j)
  {
    if e.Transfer? {
      TransferLens(s, e, i, j);
    }
  }

  lemma {:induction false} ArrayMaker(ss: seq<State>, es: seq<Event>, i: int, n: nat) returns (a: int)
    requires Run(ss, es) && n < |ss| && !ss[n].broken && ArrayLen(ss[n].items, i) > 0
    ensures ArrayBy(ss, es, a, i, n)
    decreases n
  {
    var s, e := ss[n - 1], es[n - 1];
    assert Next(s, e, ss[n]) && !e.TrimFree?;
    StepLens(s, e, i, 0);
    if MakesArray(s, e, i) {
      a := n - 1;
    } else {
      a := ArrayMaker(ss, es, i, n - 1);
    }
  }

  /** An array is as long as the set size that the write which made it had copied. */
  lemma {:induction false} ArrayAsCopied(ss: seq<State>, es: seq<Event>, a: int, i: int, n: nat)
    requires Run(ss, es) && n < |ss| && !ss[n].broken && ArrayBy(ss, es, a, i, n)
    ensures ArrayLen(ss[n].items, i) == CopyOf(ss[a], es[a]).qset > 0
    decreases n
  {
    var s, e := ss[n - 1], es[n - 1];
    assert Next(s, e, ss[n]);
    StepLens(s, e, i, 0);
    if a < n - 1 {
      assert !e.TrimFree? && ArrayBy(ss, es, a, i, n - 1);
      ArrayAsCopied(ss, es, a, i, n - 1);
    }
  }

  lemma {:induction false} QuantumMaker(ss: seq<State>, es: seq<Event>, i: int, j: int, n: nat) returns (b: int)
    requires Run(ss, es) && n < |ss| && !ss[n].broken && Len(ss[n].items, i, j) > 0
    ensures QuantumBy(ss, es, b, i, j, n)
    decreases n
  {
    var s, e := ss[n - 1], es[n - 1];
    assert Next(s, e, ss[n]) && !e.TrimFree?;
    StepLens(s, e, i, j);
    if MakesQuantum(s, e, i, j) {
      b := n - 1;
    } else {
      b := QuantumMaker(ss, es, i, j, n - 1);
    }
  }

  lemma {:induction false} QuantumAsCopied(ss: seq<State>, es: seq<Event>, b: int, i: int, j: int, n: nat)
    requires Run(ss, es) && n < |ss| && !ss[n].broken && QuantumBy(ss, es, b, i, j, n)
    ensures Len(ss[n].items, i, j) == CopyOf(ss[b], es[b]).quantum > 0
    decreases n
  {
    var s, e := ss[n - 1], es[n - 1];
    assert Next(s, e, ss[n]);
    StepLens(s, e, i, j);
    if b < n - 1 {
      assert !e.TrimFree? && QuantumBy(ss, es, b, i, j, n - 1);
      QuantumAsCopied(ss, es, b, i, j, n - 1);
    }
  }

  // ---------------------------------------------------------------- when it all fits

  /** The array that transfer `k` goes to was made under a copied set size not above its index. */
  ghost predicate PastArray(ss: seq<State>, es: seq<Event>, k: int, a: int) {
    && 0 <= k < |es| < |ss| && es[k].Transfer? && Enabled(ss[k], es[k])
    && ArrayBy(ss, es, a, Target(ss[k], es[k]).item, k) && CopyOf(ss[a], es[a]).qset <= Target(ss[k], es[k]).index
  }

  /** The quantum that it goes to was made under a copied quantum that ends before the transfer does. */
  ghost predicate PastQuantum(ss: seq<State>, es: seq<Event>, k: int, b: int) {
    && 0 <= k < |es| < |ss| && es[k].Transfer? && Enabled(ss[k], es[k]) && Bytes(ss[k], es[k]) > 0
    && var p := Target(ss[k], es[k]);
       QuantumBy(ss, es, b, p.item, p.index, k) && CopyOf(ss[b], es[b]).quantum < p.offset + Bytes(ss[k], es[k])
  }

  /** Trim `k` meets an array made under a smaller set size than the device has. */
  ghost predicate ShortForTrim(ss: seq<State>, es: seq<Event>, k: int, a: int, i: int) {
    0 <= k < |es| < |ss| && es[k].TrimFree? && ArrayBy(ss, es, a, i, k) && CopyOf(ss[a], es[a]).qset < ss[k].shape.qset
  }

  /** It misses a quantum put at an index at or past the device's set size. */
  ghost predicate MissedByTrim(ss: seq<State>, es: seq<Event>, k: int, b: int, i: int, j: int) {
    0 <= k < |es| < |ss| && es[k].TrimFree? && ss[k].shape.qset <= j && QuantumBy(ss, es, b, i, j, k)
  }

  ghost predicate Spoilt(ss: seq<State>, es: seq<Event>, k: int) {
    || (exists a :: PastArray(ss, es, k, a))
    || (exists b :: PastQuantum(ss, es, k, b))
    || (exists a, i :: ShortForTrim(ss, es, k, a, i))
    || exists b, i, j :: MissedByTrim(ss, es, k, b, i, j)
  }

  lemma OutsideIff(ss: seq<State>, es: seq<Event>, k: nat)
    requires Run(ss, es) && k < |es| && !ss[k].broken && es[k].Transfer? && Enabled(ss[k], es[k])
    ensures Outside(ss[k], es[k]) <==> (exists a :: PastArray(ss, es, k, a)) || exists b :: PastQuantum(ss, es, k, b)
  {
    var p := Target(ss[k], es[k]);
    if ArrayLen(ss[k].items, p.item) > 0 {
      var a := ArrayMaker(ss, es, p.item, k);
      ArrayAsCopied(ss, es, a, p.item, k);
      assert ArrayLen(ss[k].items, p.item) <= p.index ==> PastArray(ss, es, k, a);
    }
    if Len(ss[k].items, p.item, p.index) > 0 {
      var b := QuantumMaker(ss, es, p.item, p.index, k);
      QuantumAsCopied(ss, es, b, p.item, p.index, k);
      assert Bytes(ss[k], es[k]) > 0 && Len(ss[k].items, p.item, p.index) < p.offset + Bytes(ss[k], es[k]) ==> PastQuantum(ss, es, k, b);
    }
    if a :| PastArray(ss, es, k, a) {
      ArrayAsCopied(ss, es, a, p.item, k);
    }
    if b :| PastQuantum(ss, es, k, b) {
      QuantumAsCopied(ss, es, b, p.item, p.index, k);
    }
  }

  lemma MisfitsIff(ss: seq<State>, es: seq<Event>, k: nat)
    requires Run(ss, es) && k < |es| && !ss[k].broken && es[k].TrimFree?
    ensures Misfits(ss[k]) <==>
      (exists a, i :: ShortForTrim(ss, es, k, a, i)) || exists b, i, j :: MissedByTrim(ss, es, k, b, i, j)
  {
    if i :| 0 < ArrayLen(ss[k].items, i) < ss[k].shape.qset {
      var a := ArrayMaker(ss, es, i, k);
      ArrayAsCopied(ss, es, a, i, k);
      assert ShortForTrim(ss, es, k, a, i);
    }
    if i, j :| ss[k].shape.qset <= j && Len(ss[k].items, i, j) > 0 {
      var b := QuantumMaker(ss, es, i, j, k);
      assert MissedByTrim(ss, es, k, b, i, j);
    }
    if a, i :| ShortForTrim(ss, es, k, a, i) {
      ArrayAsCopied(ss, es, a, i, k);
    }
    if b, i, j :| MissedByTrim(ss, es, k, b, i, j) {
      QuantumAsCopied(ss, es, b, i, j, k);
    }
  }

  lemma BreaksIff(ss: seq<State>, es: seq<Event>, k: nat)
    requires Run(ss, es) && k < |es| && !ss[k].broken
    ensures Enabled(ss[k], es[k]) && (Breaks(ss[k], es[k]) <==> Spoilt(ss, es, k))
  {
    assert Next(ss[k], es[k], ss[k + 1]);
    if es[k].Transfer? {
      OutsideIff(ss, es, k);
    } else if es[k].TrimFree? {
      MisfitsIff(ss, es, k);
    }
  }

  /** Throughout a run every transfer stays in its array and quantum and every trim frees exactly all blocks,
      exactly when no transfer ends past a quantum or index past an array that an earlier write made by its own
      smaller copy, and no trim meets an array made by a smaller copy, or a quantum put past the device's set size. */
  lemma {:induction false} SoundIff(ss: seq<State>, es: seq<Event>, n: nat)
    requires Run(ss, es) && n < |ss|
    ensures !ss[n].broken <==> forall k :: 0 <= k < n ==> !Spoilt(ss, es, k)
    decreases n
  {
    if n > 0 {
      SoundIff(ss, es, n - 1);
      assert Next(ss[n - 1], es[n - 1], ss[n]);
      if !ss[n - 1].broken {
        BreaksIff(ss, es, n - 1);
      }
    }
  }

  /** Every block has the device's geometry. */
  ghost predicate Uniform(s: State) {
    && (forall i :: ArrayLen(s.items, i) > 0 ==> ArrayLen(s.items, i) == s.shape.qset)
    && forall i, j :: Len(s.items, i, j) > 0 ==> Len(s.items, i, j) == s.shape.quantum
  }

  /** A write allocates by a copy that is not the device's. */
  ghost predicate AllocatesOther(s: State, e: Event) {
    || (exists i :: MakesArray(s, e, i) && CopyOf(s, e).qset != s.shape.qset)
    || exists i, j :: MakesQuantum(s, e, i, j) && CopyOf(s, e).quantum != s.shape.quantum
  }

  lemma UniformStep(s: State, e: Event)
    requires Inv(s) && Enabled(s, e) && !Breaks(s, e) && Uniform(s)
    ensures Uniform(Step(s, e)) <==> !AllocatesOther(s, e)
  {
    if e.Transfer? {
      if AllocatesOther(s, e) {
        OtherShows(s, e);
      } else {
        OwnFits(s, e);
      }
    }
  }

  lemma OtherShows(s: State, e: Event)
    requires e.Transfer? && Enabled(s, e) && !Outside(s, e) && CopyOf(s, e).Valid() && AllocatesOther(s, e)
    ensures !Uniform(Step(s, e))
  {
    if i :| MakesArray(s, e, i) && CopyOf(s, e).qset != s.shape.qset {
      TransferLens(s, e, i, 0);
      assert ArrayLen(Step(s, e).items, i) == CopyOf(s, e).qset;
    } else {
      var i, j :| MakesQuantum(s, e, i, j) && CopyOf(s, e).quantum != s.shape.quantum;
      TransferLens(s, e, i, j);
      assert Len(Step(s, e).items, i, j) == CopyOf(s, e).quantum;
    }
  }

  lemma OwnFits(s: State, e: Event)
    requires e.Transfer? && Enabled(s, e) && !Outside(s, e) && Uniform(s) && !AllocatesOther(s, e)
    ensures Uniform(Step(s, e))
  {
    var s' := Step(s, e);
    forall i | ArrayLen(s'.items, i) > 0
      ensures ArrayLen(s'.items, i) == s'.shape.qset
    {
      TransferLens(s, e, i, 0);
    }
    forall i, j | Len(s'.items, i, j) > 0
      ensures Len(s'.items, i, j) == s'.shape.quantum
    {
      TransferLens(s, e, i, j);
    }
  }

  /** All blocks have the device's geometry throughout a run exactly when no write allocates by another copy. */
  lemma {:induction false} UniformIff(ss: seq<State>, es: seq<Event>, n: nat)
    requires Run(ss, es) && n < |ss| && !ss[n].broken
    ensures (forall k :: 0 <= k <= n ==> Uniform(ss[k])) <==> forall k :: 0 <= k < n ==> !AllocatesOther(ss[k], es[k])
    decreases n
  {
    if n > 0 {
      assert Next(ss[n - 1], es[n - 1], ss[n]);
      UniformIff(ss, es, n - 1);
      EveryRun(ss, es, n - 1);
      if Uniform(ss[n - 1]) {
        UniformStep(ss[n - 1], es[n - 1]);
      }
    }
  }

  lemma CurrentStep(s: State, e: Event)
    requires Inv(s) && Uniform(s) && Enabled(s, e) && (e.Transfer? ==> CopyOf(s, e) == s.shape)
    ensures !Breaks(s, e) && Uniform(Step(s, e))
  {
    if e.Transfer? {
      PlaceBounds(s.shape, e.pos);
      assert Target(s, e).offset + Bytes(s, e) <= s.shape.quantum;
    } else if e.TrimFree? {
      UniformFits(s);
    }
    UniformStep(s, e);
  }

  lemma UniformFits(s: State)
    requires Uniform(s)
    ensures !Misfits(s)
  {
    forall i, j | Len(s.items, i, j) > 0
      ensures j < s.shape.qset
    {
      assert ArrayLen(s.items, i) > 0;
    }
  }

  // ---------------------------------------------------------------- when a copy is the device's

  datatype Dim = Quantum | Qset

  function Value(g: Shape, d: Dim): nat {
    if d.Quantum? then g.quantum else g.qset
  }

  predicate Reads(e: Event, t: int, d: Dim) {
    e == if d.Quantum? then ReadQuantum(t) else ReadQset(t)
  }

  predicate Ends(e: Event, t: int) {
    (e.Transfer? || e.Leave?) && e.t == t
  }

  predicate Stores(e: Event, d: Dim) {
    if d.Quantum? then e.StoreQuantum? else e.StoreQset?
  }

  function StoredValue(e: Event, d: Dim): nat
    requires Stores(e, d)
  {
    if d.Quantum? then e.quantum else e.qset
  }

  predicate Has(s: State, t: int, d: Dim) {
    t in s.calls && (d.Quantum? || s.calls[t].Copied?)
  }

  function CopiedValue(s: State, t: int, d: Dim): nat
    requires Has(s, t, d)
  {
    if s.calls[t].HalfRead? then s.calls[t].quantum else Value(s.calls[t].shape, d)
  }

  /** Event `i` is where the call of `t` that is under way at `n` read this half of the geometry. */
  ghost predicate ReadAt(es: seq<Event>, t: int, d: Dim, i: int, n: int) {
    0 <= i < n <= |es| && Reads(es[i], t, d) && forall m :: i < m < n ==> !Ends(es[m], t)
  }

  /** Since then the last store, at `j`, has changed it. */
  ghost predicate StoredSince(ss: seq<State>, es: seq<Event>, t: int, d: Dim, i: int, j: int, n: int) {
    && n < |ss| && ReadAt(es, t, d, i, n) && i < j < n && Stores(es[j], d) && StoredValue(es[j], d) != Value(ss[i].shape, d)
    && forall m :: j < m < n ==> !Stores(es[m], d)
  }

  lemma {:induction false} ReadBefore(ss: seq<State>, es: seq<Event>, t: int, d: Dim, n: nat) returns (i: int)
    requires Run(ss, es) && n < |ss| && !ss[n].broken && Has(ss[n], t, d)
    ensures ReadAt(es, t, d, i, n)
    decreases n
  {
    assert Next(ss[n - 1], es[n - 1], ss[n]);
    if Reads(es[n - 1], t, d) {
      i := n - 1;
    } else {
      i := ReadBefore(ss, es, t, d, n - 1);
    }
  }

  lemma {:induction false} CopiedIsRead(ss: seq<State>, es: seq<Event>, t: int, d: Dim, i: int, n: nat)
    requires Run(ss, es) && n < |ss| && !ss[n].broken && ReadAt(es, t, d, i, n)
    ensures Has(ss[n], t, d) && CopiedValue(ss[n], t, d) == Value(ss[i].shape, d)
    decreases n
  {
    assert Next(ss[n - 1], es[n - 1], ss[n]);
    if i < n - 1 {
      assert ReadAt(es, t, d, i, n - 1) && !Ends(es[n - 1], t);
      CopiedIsRead(ss, es, t, d, i, n - 1);
    }
  }

  lemma ValueStep(s: State, e: Event, d: Dim)
    requires Enabled(s, e)
    ensures Value(Step(s, e).shape, d) == if Stores(e, d) then StoredValue(e, d) else Value(s.shape, d)
  {
  }

  lemma {:induction false} ValueUnchanged(ss: seq<State>, es: seq<Event>, d: Dim, i: int, n: nat)
    requires Run(ss, es) && 0 <= i <= n < |ss| && !ss[n].broken && forall m :: i <= m < n ==> !Stores(es[m], d)
    ensures Value(ss[n].shape, d) == Value(ss[i].shape, d)
    decreases n
  {
    if i < n {
      assert Next(ss[n - 1], es[n - 1], ss[n]);
      ValueUnchanged(ss, es, d, i, n - 1);
      ValueStep(ss[n - 1], es[n - 1], d);
    }
  }

  lemma {:induction false} ValueStored(ss: seq<State>, es: seq<Event>, d: Dim, j: int, n: nat)
    requires Run(ss, es) && 0 <= j < n < |ss| && !ss[n].broken && Stores(es[j], d) && forall m :: j < m < n ==> !Stores(es[m], d)
    ensures Value(ss[n].shape, d) == StoredValue(es[j], d)
    decreases n
  {
    assert Next(ss[n - 1], es[n - 1], ss[n]);
    ValueStep(ss[n - 1], es[n - 1], d);
    if j < n - 1 {
      ValueStored(ss, es, d, j, n - 1);
    }
  }

  lemma {:induction false} LastStore(es: seq<Event>, d: Dim, i: int, n: int) returns (j: int)
    requires 0 <= i < n <= |es| && exists m :: i <= m < n && Stores(es[m], d)
    ensures i <= j < n && Stores(es[j], d) && forall m :: j < m < n ==> !Stores(es[m], d)
    decreases n
  {
    if Stores(es[n - 1], d) {
      j := n - 1;
    } else {
      j := LastStore(es, d, i, n - 1);
    }
  }

  /** A call's copy of quantum or set size is not the device's exactly when a store since its read has changed it. */
  lemma StaleIff(ss: seq<State>, es: seq<Event>, t: int, d: Dim, n: nat)
    requires Run(ss, es) && n < |ss| && !ss[n].broken && Has(ss[n], t, d)
    ensures CopiedValue(ss[n], t, d) != Value(ss[n].shape, d) <==> exists i, j :: StoredSince(ss, es, t, d, i, j, n)
  {
    var i := ReadBefore(ss, es, t, d, n);
    CopiedIsRead(ss, es, t, d, i, n);
    if CopiedValue(ss[n], t, d) != Value(ss[n].shape, d) {
      if forall m :: i <= m < n ==> !Stores(es[m], d) {
        ValueUnchanged(ss, es, d, i, n);
      }
      var j := LastStore(es, d, i, n);
      ValueStored(ss, es, d, j, n);
      assert StoredSince(ss, es, t, d, i, j, n);
    }
    if i, j :| StoredSince(ss, es, t, d, i, j, n) {
      CopiedIsRead(ss, es, t, d, i, n);
      ValueStored(ss, es, d, j, n);
    }
  }

  /** A transfer goes where the device's geometry says, at every position and for every count, exactly when
      neither quantum nor set size has been changed between the call's read of it and its taking of the mutex. */
  lemma TransferLandsIff(ss: seq<State>, es: seq<Event>, k: nat)
    requires Run(ss, es) && k < |es| && !ss[k].broken && es[k].Transfer?
    ensures Enabled(ss[k], es[k]) && ss[k].shape.Valid()
    ensures AlwaysLands(CopyOf(ss[k], es[k]), ss[k].shape) <==> !exists d, i, j :: StoredSince(ss, es, es[k].t, d, i, j, k)
  {
    assert Next(ss[k], es[k], ss[k + 1]);
    EveryRun(ss, es, k);
    LandsIff(CopyOf(ss[k], es[k]), ss[k].shape);
    StaleIff(ss, es, es[k].t, Quantum, k);
    StaleIff(ss, es, es[k].t, Qset, k);
    if d, i, j :| StoredSince(ss, es, es[k].t, d, i, j, k) {
      assert d == Quantum || d == Qset;
    }
  }

  /** When no store falls between a call's reads of the geometry and its taking of the mutex, all blocks have the
      device's geometry and nothing breaks. */
  lemma {:induction false} UndisturbedIsSound(ss: seq<State>, es: seq<Event>, n: nat)
    requires Run(ss, es) && n < |ss|
    requires forall k, d, i, j :: 0 <= k < n && es[k].Transfer? ==> !StoredSince(ss, es, es[k].t, d, i, j, k)
    ensures !ss[n].broken && Uniform(ss[n])
    decreases n
  {
    if n > 0 {
      UndisturbedIsSound(ss, es, n - 1);
      EveryRun(ss, es, n - 1);
      assert Next(ss[n - 1], es[n - 1], ss[n]);
      if es[n - 1].Transfer? {
        StaleIff(ss, es, es[n - 1].t, Quantum, n - 1);
        StaleIff(ss, es, es[n - 1].t, Qset, n - 1);
      }
      CurrentStep(ss[n - 1], es[n - 1]);
    }
  }

  // ---------------------------------------------------------------- runs that go wrong

  ghost predicate Reachable(s: State) {
    !s.broken && exists ss, es :: Run(ss, es) && ss[|es|] == s
  }

  lemma ReachStart(g: Shape)
    requires g.Valid()
    ensures Reachable(State(g, [], map[], Idle, false))
  {
    var none: seq<Event> := [];
    var s := State(g, [], map[], Idle, false);
    assert Run([s], none) && [s][|none|] == s;
  }

  lemma ReachStep(s: State, e: Event)
    requires Reachable(s) && Enabled(s, e) && !Breaks(s, e)
    ensures Reachable(Step(s, e))
  {
    var ss, es :| Run(ss, es) && ss[|es|] == s;
    var s' := Step(s, e);
    var ss', es' := ss + [s'], es + [e];
    forall i | 0 <= i < |es'|
      ensures Next(ss'[i], es'[i], ss'[i + 1])
    {
      if i < |es| {
        assert ss'[i] == ss[i] && ss'[i + 1] == ss[i + 1] && es'[i] == es[i];
        assert Next(ss[i], es[i], ss[i + 1]);
      }
    }
    assert ss'[|es'|] == s';
  }

  /** A call copies the geometry undisturbed. */
  lemma Copies(s: State, t: int) returns (s': State)
    requires Reachable(s) && t !in s.calls
    ensures Reachable(s') && s' == s.(calls := s.calls[t := Copied(s.shape)])
  {
    ReachStep(s, ReadQuantum(t));
    var s1 := Step(s, ReadQuantum(t));
    ReachStep(s1, ReadQset(t));
    s' := Step(s1, ReadQset(t));
    assert s'.calls == s.calls[t := Copied(s.shape)];
  }

  /** An empty device is trimmed to another geometry. */
  lemma Trims(s: State, g: Shape) returns (s': State)
    requires Reachable(s) && s.phase.Idle? && s.items == [] && g.Valid()
    ensures Reachable(s') && s' == s.(shape := g)
  {
    ReachStep(s, TrimFree);
    var s1 := Step(s, TrimFree);
    ReachStep(s1, StoreQuantum(g.quantum));
    var s2 := Step(s1, StoreQuantum(g.quantum));
    ReachStep(s2, StoreQset(g.qset));
    s' := Step(s2, StoreQset(g.qset));
  }

  const Small := Shape(1000, 10)
  const Large := Shape(4000, 1000)
  const Plenty := Memory(1, true, true)

  /** A write under an older, smaller copy has allocated the first block of a device trimmed since. */
  lemma SmallBlock() returns (s: State)
    ensures Reachable(s) && s.shape == Large && s.phase.Idle? && s.calls == map[]
    ensures ArrayLen(s.items, 0) == 10 && Len(s.items, 0, 0) == 1000
  {
    ReachStart(Small);
    s := Copies(State(Small, [], map[], Idle, false), 0);
    s := Trims(s, Large);
    var e := Transfer(0, true, 0, 1, Plenty);
    PlaceAtStart(Small);
    TransferLens(s, e, 0, 0);
    ReachStep(s, e);
    s := Step(s, e);
    assert s.calls == map[];
  }

  /** Then a transfer by the device's own geometry, copied and locked with no trim between, leaves the quantum. */
  lemma CurrentTransferOutside() returns (s: State, e: Event)
    ensures Reachable(s) && e.Transfer? && Enabled(s, e) && CopyOf(s, e) == s.shape && Outside(s, e)
  {
    s := SmallBlock();
    s := Copies(s, 1);
    e := Transfer(1, false, 0, 4000, Plenty);
    PlaceAtStart(Large);
  }

  /** And the next trim runs past the array. */
  lemma TrimRunsPast() returns (s: State)
    ensures Reachable(s) && s.phase.Idle? && Misfits(s)
  {
    s := SmallBlock();
    assert 0 < ArrayLen(s.items, 0) < s.shape.qset;
  }

  /** A call that reads quantum and set size on either side of a trim has a geometry that the device never had. */
  lemma TornCopy() returns (s: State)
    ensures Reachable(s) && 0 in s.calls && s.calls[0] == Copied(Shape(4000, 10)) && s.shape == Small
  {
    ReachStart(Large);
    s := State(Large, [], map[], Idle, false);
    ReachStep(s, ReadQuantum(0));
    s := Trims(Step(s, ReadQuantum(0)), Small);
    ReachStep(s, ReadQset(0));
    s := Step(s, ReadQset(0));
  }
}
