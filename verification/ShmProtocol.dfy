/** All interleavings of shmget, shmat, fork, munmap and shmctl on one namespace.
    shmat is three steps: it pins the segment, drops every lock around do_mmap, and
    takes the pin back.  Nothing orders the steps of different threads. */
module ShmProtocol {
  import opened Basics
  import opened Totals
  import opened Shm

  /** A do_shmat in its unlocked window; `tried` once do_mmap has returned. */
  datatype Call = Call(shmid: int, tried: bool)

  /** `vmas` maps each mapped area to its segment id; `bug` records a BUG_ON that fired. */
  datatype State = State(ns: Ns, vmas: map<int, int>, calls: map<int, Call>, bug: bool)

  datatype Event =
    | Get(key: int, size: nat, mode: bv16, create: bool, excl: bool, permitted: bool, env: NewsegEnv)
    | AtPin(t: int, shmid: int, permitted: bool)
    | AtMap(t: int, mapped: Option<int>)
    | AtUnpin(t: int)
    | Fork(from: int, area: int)
    | Unmap(area: int)
    | RmidCtl(shmid: int, permitted: bool)
    | SetCtl(shmid: int, mode: bv16, permitted: bool)
    | LockCtl(shmid: int, lock: bool, permitted: bool, lockErr: int)

  function Init(ctlmax: nat, ctlall: nat): State {
    State(Ns(map[], 0, ctlmax, ctlall), map[], map[], false)
  }

  ghost predicate Next(s: State, e: Event, s': State) {
    match e
    case Get(key, size, mode, create, excl, permitted, env) =>
      && (env.slot.Some? ==> env.slot.value !in s.ns.segs)
      && s' == s.(ns := s'.ns)
      && exists ret :: Got(s.ns, key, size, mode, create, excl, permitted, env, s'.ns, ret)
    case AtPin(t, shmid, permitted) =>
      && t !in s.calls
      && s' == if shmid in s.ns.segs && permitted
               then s.(ns := Attach(s.ns, shmid), calls := s.calls[t := Call(shmid, false)])
               else s
    case AtMap(t, area) =>
      && t in s.calls && !s.calls[t].tried
      && (area.Some? ==> area.value !in s.vmas)
      && var id := s.calls[t].shmid;
         var done := s.(calls := s.calls[t := Call(id, true)]);
         s' == if area.None? then done
               else if id !in s.ns.segs then done.(bug := true)
               else done.(ns := Attach(s.ns, id), vmas := s.vmas[area.value := id])
    case AtUnpin(t) =>
      && t in s.calls && s.calls[t].tried
      && s' == Released(s.(calls := s.calls - {t}), s.calls[t].shmid)
    case Fork(from, area) =>
      && from in s.vmas && area !in s.vmas
      && var id := s.vmas[from];
         s' == if id !in s.ns.segs then s.(bug := true)
               else s.(ns := Attach(s.ns, id), vmas := s.vmas[area := id])
    case Unmap(area) =>
      && area in s.vmas
      && s' == Released(s.(vmas := s.vmas - {area}), s.vmas[area])
    case RmidCtl(shmid, permitted) =>
      s' == if shmid in s.ns.segs && permitted then s.(ns := Rmid(s.ns, shmid)) else s
    case SetCtl(shmid, mode, permitted) =>
      s' == if shmid in s.ns.segs && permitted then s.(ns := SetMode(s.ns, shmid, mode)) else s
    case LockCtl(shmid, lock, permitted, lockErr) =>
      s' == if shmid in s.ns.segs && permitted && (lock ==> lockErr == 0)
            then s.(ns := SetLocked(s.ns, shmid, lock)) else s
  }

  function Released(s: State, id: int): State {
    if id in s.ns.segs then s.(ns := Detach(s.ns, id)) else s.(bug := true)
  }

  ghost predicate Behaviour(ss: seq<State>, es: seq<Event>) {
    && |ss| == |es| + 1
    && (exists ctlmax: nat, ctlall: nat :: ss[0] == Init(ctlmax, ctlall))
    && forall i :: 0 <= i < |es| ==> Next(ss[i], es[i], ss[i + 1])
  }

  // ---------------------------------------------------------------- the invariant

  ghost function AreaOf(id: int): int -> nat {
    (x: int) => if x == id then 1 else 0
  }

  ghost function CallOn(id: int): Call -> nat {
    (c: Call) => if c.shmid == id then 1 else 0
  }

  /** Mapped areas of a segment plus the shmat calls inside their unlocked window. */
  ghost function Holders(s: State, id: int): nat {
    Total(s.vmas, AreaOf(id)) + Total(s.calls, CallOn(id))
  }

  /** The attach count of a live segment is its number of holders, and only live segments have any. */
  ghost predicate Counted(s: State) {
    forall id :: CountedAt(s, id)
  }

  ghost predicate CountedAt(s: State, id: int) {
    Holders(s, id) == if id in s.ns.segs then s.ns.segs[id].nattch else 0
  }

  ghost predicate Inv(s: State) {
    !s.bug && Counted(s) && TableInv(s.ns)
  }

  // ---------------------------------------------------------------- steps keep the invariant

  lemma AddArea(s: State, area: int, x: int, id: int)
    requires area !in s.vmas
    ensures Holders(s.(vmas := s.vmas[area := x]), id) == Holders(s, id) + if x == id then 1 else 0
  {
    TotalPut(s.vmas, AreaOf(id), area, x);
  }

  lemma DropArea(s: State, area: int, id: int)
    requires area in s.vmas
    ensures Holders(s.(vmas := s.vmas - {area}), id) == Holders(s, id) - if s.vmas[area] == id then 1 else 0
  {
    TotalTake(s.vmas, AreaOf(id), area);
  }

  lemma PutCall(s: State, t: int, c: Call, id: int)
    ensures Holders(s.(calls := s.calls[t := c]), id) ==
            Holders(s, id) + (if c.shmid == id then 1 else 0)
            - if t in s.calls && s.calls[t].shmid == id then 1 else 0
  {
    TotalPut(s.calls, CallOn(id), t, c);
  }

  lemma DropCall(s: State, t: int, id: int)
    requires t in s.calls
    ensures Holders(s.(calls := s.calls - {t}), id) == Holders(s, id) - if s.calls[t].shmid == id then 1 else 0
  {
    TotalTake(s.calls, CallOn(id), t);
  }

  lemma OnlyTable(s: State, ns: Ns, id: int)
    ensures Holders(s.(ns := ns), id) == Holders(s, id)
  {
  }

  /** Whoever holds a segment keeps it in the table: the assertion behind every BUG_ON. */
  lemma HeldIsLive(s: State, id: int)
    requires Counted(s)
    requires (exists area :: area in s.vmas && s.vmas[area] == id) || (exists t :: t in s.calls && s.calls[t].shmid == id)
    ensures id in s.ns.segs && s.ns.segs[id].nattch > 0
  {
    if area :| area in s.vmas && s.vmas[area] == id {
      TotalSome(s.vmas, AreaOf(id), area);
    } else {
      var t :| t in s.calls && s.calls[t].shmid == id;
      TotalSome(s.calls, CallOn(id), t);
    }
    assert CountedAt(s, id);
  }

  lemma CreateStep(s: State, e: Event, s': State)
    requires Inv(s) && e.Get? && Next(s, e, s')
    ensures Inv(s')
  {
    if e.key == IPC_PRIVATE || !exists id :: Names(s.ns, e.key, id) {
      CreateKeeps(s.ns, e.key, e.size, e.mode, e.env);
    }
    forall id
      ensures CountedAt(s', id)
    {
      OnlyTable(s, s'.ns, id);
      assert CountedAt(s, id);
    }
  }

  lemma PinStep(s: State, e: Event, s': State)
    requires Inv(s) && e.AtPin? && Next(s, e, s')
    ensures Inv(s')
  {
    var id := e.shmid;
    assert CountedAt(s, id);
    if s' != s {
      AttachKeeps(s.ns, id);
      forall x
        ensures CountedAt(s', x)
      {
        assert CountedAt(s, x);
        PutCall(s, e.t, Call(id, false), x);
        OnlyTable(s.(calls := s'.calls), s'.ns, x);
      }
    }
  }

  lemma MapStep(s: State, e: Event, s': State)
    requires Inv(s) && e.AtMap? && Next(s, e, s')
    ensures Inv(s')
  {
    var id := s.calls[e.t].shmid;
    HeldIsLive(s, id);
    AttachKeeps(s.ns, id);
    var done := s.(calls := s.calls[e.t := Call(id, true)]);
    forall x
      ensures CountedAt(s', x)
    {
      assert CountedAt(s, x);
      PutCall(s, e.t, Call(id, true), x);
      if e.mapped.Some? {
        AddArea(done, e.mapped.value, id, x);
        OnlyTable(done.(vmas := s'.vmas), s'.ns, x);
      }
    }
  }

  lemma ForkStep(s: State, e: Event, s': State)
    requires Inv(s) && e.Fork? && Next(s, e, s')
    ensures Inv(s')
  {
    var id := s.vmas[e.from];
    HeldIsLive(s, id);
    AttachKeeps(s.ns, id);
    forall x
      ensures CountedAt(s', x)
    {
      assert CountedAt(s, x);
      AddArea(s, e.area, id, x);
      OnlyTable(s.(vmas := s'.vmas), s'.ns, x);
    }
  }

  lemma ReleaseStep(s: State, e: Event, s': State)
    requires Inv(s) && (e.AtUnpin? || e.Unmap?) && Next(s, e, s')
    ensures Inv(s')
  {
    var id := if e.Unmap? then s.vmas[e.area] else s.calls[e.t].shmid;
    HeldIsLive(s, id);
    DetachKeeps(s.ns, id);
    forall x
      ensures CountedAt(s', x)
    {
      assert CountedAt(s, x);
      if e.Unmap? {
        DropArea(s, e.area, x);
      } else {
        DropCall(s, e.t, x);
      }
    }
  }

  /** Remove, set and lock change the table alone, and no attach count. */
  lemma ControlCounts(s: State, e: Event, s': State)
    requires Counted(s) && (e.RmidCtl? || e.SetCtl? || e.LockCtl?) && Next(s, e, s')
    ensures Counted(s') && s' == s.(ns := s'.ns)
  {
    forall x
      ensures CountedAt(s', x)
    {
      assert CountedAt(s, x);
      OnlyTable(s, s'.ns, x);
    }
  }

  lemma ControlStep(s: State, e: Event, s': State)
    requires Inv(s) && (e.RmidCtl? || e.SetCtl? || e.LockCtl?) && Next(s, e, s')
    ensures Inv(s')
  {
    ControlCounts(s, e, s');
    if e.shmid in s.ns.segs {
      var seg := s.ns.segs[e.shmid];
      assert CountedAt(s, e.shmid);
      match e
      case RmidCtl(id, _) =>
        RmidKeeps(s.ns, id);
      case SetCtl(id, mode, _) =>
        MarkSurvives(seg, mode, false);
        RemodeKeeps(s.ns, id, PermissionMode(seg.mode, mode));
      case LockCtl(id, lock, _, _) =>
        MarkSurvives(seg, 0, lock);
        RemodeKeeps(s.ns, id, LockedMode(seg.mode, lock));
    }
  }

  lemma StepKeepsInv(s: State, e: Event, s': State)
    requires Inv(s) && Next(s, e, s')
    ensures Inv(s')
  {
    match e
    case Get(_, _, _, _, _, _, _) => CreateStep(s, e, s');
    case AtPin(_, _, _) => PinStep(s, e, s');
    case AtMap(_, _) => MapStep(s, e, s');
    case Fork(_, _) => ForkStep(s, e, s');
    case AtUnpin(_) => ReleaseStep(s, e, s');
    case Unmap(_) => ReleaseStep(s, e, s');
    case RmidCtl(_, _) => ControlStep(s, e, s');
    case SetCtl(_, _, _) => ControlStep(s, e, s');
    case LockCtl(_, _, _, _) => ControlStep(s, e, s');
  }

  lemma InitInv(ctlmax: nat, ctlall: nat)
    ensures Inv(Init(ctlmax, ctlall))
  {
  }

  // ---------------------------------------------------------------- main results

  /** In every interleaving, at every point: counts exact, no BUG_ON, budget exact, keys unique,
      and a marked segment is still attached. */
  lemma {:induction false} EveryRunSafe(ss: seq<State>, es: seq<Event>, i: nat)
    requires Behaviour(ss, es) && i < |ss|
    ensures Inv(ss[i])
    decreases i
  {
    if i == 0 {
      var ctlmax: nat, ctlall: nat :| ss[0] == Init(ctlmax, ctlall);
      InitInv(ctlmax, ctlall);
    } else {
      EveryRunSafe(ss, es, i - 1);
      StepKeepsInv(ss[i - 1], es[i - 1], ss[i]);
    }
  }

  /** The step releases a hold on `id`: an unmap, or the end of a shmat. */
  predicate Releases(s: State, e: Event, id: int) {
    || (e.Unmap? && e.area in s.vmas && s.vmas[e.area] == id)
    || (e.AtUnpin? && e.t in s.calls && s.calls[e.t].shmid == id)
  }

  predicate SameSegment(seg: Segment, seg': Segment) {
    seg'.segsz == seg.segsz && (Marked(seg) ==> Marked(seg'))
  }

  lemma ModeFate(s: State, e: Event, s': State, id: int)
    requires (e.SetCtl? || e.LockCtl?) && Next(s, e, s') && id in s.ns.segs
    ensures id in s'.ns.segs && SameSegment(s.ns.segs[id], s'.ns.segs[id])
  {
    if e.SetCtl? {
      MarkSurvives(s.ns.segs[id], e.mode, false);
    } else {
      MarkSurvives(s.ns.segs[id], 0, e.lock);
    }
  }

  lemma RmidFate(s: State, e: Event, s': State, id: int)
    requires e.RmidCtl? && Next(s, e, s') && id in s.ns.segs
    ensures id !in s'.ns.segs <==> e.shmid == id && e.permitted && s.ns.segs[id].nattch == 0
    ensures id in s'.ns.segs ==> SameSegment(s.ns.segs[id], s'.ns.segs[id])
  {
  }

  lemma ReleaseFate(s: State, e: Event, s': State, id: int)
    requires (e.AtUnpin? || e.Unmap?) && Next(s, e, s') && id in s.ns.segs
    ensures id !in s'.ns.segs <==> Releases(s, e, id) && Marked(s.ns.segs[id]) && s.ns.segs[id].nattch == 1
    ensures id in s'.ns.segs ==> SameSegment(s.ns.segs[id], s'.ns.segs[id])
  {
  }

  /** Exactly when a live segment leaves the table: removal of an unattached one, or the last
      release of a marked one.  Otherwise it keeps its size and, once given, its mark. */
  lemma Fate(s: State, e: Event, s': State, id: int)
    requires Inv(s) && Next(s, e, s') && id in s.ns.segs
    ensures id !in s'.ns.segs <==>
      || (e.RmidCtl? && e.shmid == id && e.permitted && Holders(s, id) == 0)
      || (Releases(s, e, id) && Marked(s.ns.segs[id]) && Holders(s, id) == 1)
    ensures id in s'.ns.segs ==> SameSegment(s.ns.segs[id], s'.ns.segs[id])
  {
    assert CountedAt(s, id);
    if e.SetCtl? {
      ModeFate(s, e, s', id);
    } else if e.LockCtl? {
      ModeFate(s, e, s', id);
    } else if e.RmidCtl? {
      RmidFate(s, e, s', id);
    } else if e.AtUnpin? || e.Unmap? {
      ReleaseFate(s, e, s', id);
    }
  }

  lemma MappedStep(s: State, e: Event, s': State, area: int, id: int)
    requires Inv(s) && Next(s, e, s')
    requires area in s.vmas && s.vmas[area] == id && area in s'.vmas && s'.vmas[area] == id
    ensures id in s.ns.segs && id in s'.ns.segs
    ensures s'.ns.segs[id].segsz == s.ns.segs[id].segsz
  {
    StepKeepsInv(s, e, s');
    HeldIsLive(s, id);
    HeldIsLive(s', id);
    Fate(s, e, s', id);
  }

  /** As long as an area stays mapped on a segment through a run, that segment is never destroyed,
      so the area sees one and the same segment throughout. */
  lemma {:induction false} MappedSegmentStays(ss: seq<State>, es: seq<Event>, area: int, id: int, lo: nat, hi: nat)
    requires Behaviour(ss, es) && lo <= hi < |ss|
    requires forall i :: lo <= i <= hi ==> area in ss[i].vmas && ss[i].vmas[area] == id
    ensures id in ss[lo].ns.segs && id in ss[hi].ns.segs
    ensures ss[hi].ns.segs[id].segsz == ss[lo].ns.segs[id].segsz
    decreases hi
  {
    if lo == hi {
      EveryRunSafe(ss, es, lo);
      HeldIsLive(ss[lo], id);
    } else {
      MappedSegmentStays(ss, es, area, id, lo, hi - 1);
      EveryRunSafe(ss, es, hi - 1);
      MappedStep(ss[hi - 1], es[hi - 1], ss[hi], area, id);
    }
  }

  /** With nothing mapped and no shmat under way, no marked segment is left and every attach count is zero. */
  lemma QuiescentIsClean(ss: seq<State>, es: seq<Event>, i: nat)
    requires Behaviour(ss, es) && i < |ss|
    requires ss[i].vmas == map[] && ss[i].calls == map[]
    ensures forall id :: id in ss[i].ns.segs ==> ss[i].ns.segs[id].nattch == 0 && !Marked(ss[i].ns.segs[id])
  {
    EveryRunSafe(ss, es, i);
    forall id | id in ss[i].ns.segs
      ensures ss[i].ns.segs[id].nattch == 0
    {
      assert CountedAt(ss[i], id);
    }
  }

  /** A removed but still attached segment cannot be found by key any more: shmget with its old
      key never answers it, in any later state of any run. */
  lemma MarkedNotFound(ss: seq<State>, es: seq<Event>, i: nat, key: int, size: nat, mode: bv16, create: bool,
                       excl: bool, permitted: bool, env: NewsegEnv, ns': Ns, ret: int)
    requires Behaviour(ss, es) && i < |ss|
    requires env.slot.Some? ==> env.slot.value !in ss[i].ns.segs
    requires Got(ss[i].ns, key, size, mode, create, excl, permitted, env, ns', ret)
    ensures ret >= 0 && ret in ss[i].ns.segs ==> !Marked(ss[i].ns.segs[ret])
  {
    EveryRunSafe(ss, es, i);
  }
}
