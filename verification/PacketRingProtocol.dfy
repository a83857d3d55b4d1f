/** Several packet_set_ring calls on one socket, with mappings coming and going.  Until it locks the socket a call
    runs step by step beside the others: it tests for a ring, sets the shared frames_per_block, and then goes by
    whatever that field holds. */
module PacketRingProtocol {
  import opened PacketRing

  /** How far a call has come.  `Looping` is the header loop at frame `k` of block `i`. */
  datatype Pc = Tested | Divided | Positive | Fitted | Looping(i: nat, k: nat) | Ready

  datatype Call = Call(req: Req, pc: Pc, blocks: set<int>)

  /** The ring in place: its blocks and the request they were allocated for.  No blocks is no ring. */
  datatype Ring = Ring(blocks: set<int>, req: Req)

  /** `strayed` means that a header was initialised outside the frames of its block. */
  datatype State = State(ring: Ring, fpb: nat, mapped: nat, calls: map<int, Call>, live: set<int>, strayed: bool)

  datatype Event =
    | Begin(t: int, req: Req)              // no ring in place and sizes that pass, or no blocks asked for
    | Divide(t: int, quotient: nat)
    | TestPositive(t: int)
    | TestProduct(t: int)
    | Alloc(t: int, blocks: set<int>)      // no blocks: out of memory
    | Header(t: int)                       // one test of the header loop, and the header if it passes
    | Commit(t: int, closing: bool)
    | Mmap
    | Munmap

  function Quotient(req: Req): nat {
    if req.frameSize > 0 then FramesPerBlock(req) else 0
  }

  function Put(s: State, t: int, call: Call): State {
    s.(calls := s.calls[t := call])
  }

  function Drop(s: State, t: int): State {
    s.(calls := s.calls - {t})
  }

  function At(s: State, t: int, pc: Pc): State
    requires t in s.calls
  {
    Put(s, t, s.calls[t].(pc := pc))
  }

  ghost predicate Next(s: State, e: Event, s': State) {
    match e
    case Begin(t, req) =>
      && t !in s.calls
      && if req.blockNr == 0 then req.frameNr == 0 && s' == Put(s, t, Call(req, Ready, {}))
         else s.ring.blocks == {} && Sized(req) && s' == Put(s, t, Call(req, Tested, {}))
    case Divide(t, quotient) =>
      && t in s.calls && s.calls[t].pc.Tested? && Sized(s.calls[t].req) && quotient == FramesPerBlock(s.calls[t].req)
      && s' == At(s, t, Divided).(fpb := quotient)
    case TestPositive(t) =>
      && t in s.calls && s.calls[t].pc.Divided?
      && s' == if s.fpb == 0 then Drop(s, t) else At(s, t, Positive)
    case TestProduct(t) =>
      && t in s.calls && s.calls[t].pc.Positive?
      && s' == if Multiplies(s.fpb, s.calls[t].req) then At(s, t, Fitted) else Drop(s, t)
    case Alloc(t, blocks) =>
      && t in s.calls && s.calls[t].pc.Fitted? && blocks !! s.live
      && (blocks != {} ==> |blocks| == s.calls[t].req.blockNr)
      && s' == if blocks == {} then Drop(s, t)
               else Put(s, t, Call(s.calls[t].req, Looping(0, 0), blocks)).(live := s.live + blocks)
    case Header(t) =>
      && t in s.calls && s.calls[t].pc.Looping? && Sized(s.calls[t].req)
      && s' == Cleared(s, t)
    case Commit(t, closing) =>
      && t in s.calls && s.calls[t].pc.Ready?
      && s' == if closing || s.mapped == 0
               then Drop(s, t).(ring := Ring(s.calls[t].blocks, s.calls[t].req), live := s.live - s.ring.blocks)
               else Drop(s, t).(live := s.live - s.calls[t].blocks)
    case Mmap => s.ring.blocks != {} && s' == s.(mapped := s.mapped + 1)
    case Munmap => s.mapped > 0 && s' == s.(mapped := s.mapped - 1)
  }

  /** The loops run to the number of blocks and, in each, to what frames_per_block holds at that moment. */
  function Cleared(s: State, t: int): State
    requires t in s.calls && s.calls[t].pc.Looping? && s.calls[t].req.frameSize > 0
  {
    var call := s.calls[t];
    if call.pc.i >= call.req.blockNr then At(s, t, Ready)
    else if call.pc.k < s.fpb then
      At(s, t, Looping(call.pc.i, call.pc.k + 1)).(strayed := s.strayed || call.pc.k >= FramesPerBlock(call.req))
    else At(s, t, Looping(call.pc.i + 1, 0))
  }

  const NoReq := Req(0, 0, 0, 0)

  const Start := State(Ring({}, NoReq), 0, 0, map[], {}, false)

  ghost predicate Run(ss: seq<State>, es: seq<Event>) {
    && |ss| == |es| + 1 && ss[0] == Start
    && forall i :: 0 <= i < |es| ==> Next(ss[i], es[i], ss[i + 1])
  }

  // ---------------------------------------------------------------- memory

  /** Who may own a block: the ring, or a call in flight. */
  ghost predicate Owned(s: State, b: int) {
    b in s.ring.blocks || exists t :: t in s.calls && b in s.calls[t].blocks
  }

  /** Allocated blocks are exactly those of the ring and of the calls in flight, and none is owned twice. */
  ghost predicate Conserved(s: State) {
    && (forall b :: b in s.live <==> Owned(s, b))
    && (forall t :: t in s.calls ==> s.calls[t].blocks !! s.ring.blocks)
    && (forall t, u :: t in s.calls && u in s.calls && t != u ==> s.calls[t].blocks !! s.calls[u].blocks)
    && forall t :: t in s.calls && s.calls[t].blocks != {} ==> s.calls[t].pc.Looping? || s.calls[t].pc.Ready?
  }

  lemma OwnedIsLive(s: State, t: int)
    requires Conserved(s)
    ensures s.ring.blocks <= s.live && (t in s.calls ==> s.calls[t].blocks <= s.live)
  {
    forall b | b in s.ring.blocks ensures b in s.live { assert Owned(s, b); }
    if t in s.calls {
      forall b | b in s.calls[t].blocks ensures b in s.live { assert Owned(s, b); }
    }
  }

  lemma AllocKeeps(s: State, e: Event, s': State)
    requires Conserved(s) && e.Alloc? && e.blocks != {} && Next(s, e, s')
    ensures Conserved(s')
  {
    forall t ensures s.ring.blocks <= s.live && (t in s.calls ==> s.calls[t].blocks <= s.live) { OwnedIsLive(s, t); }
    forall b
      ensures b in s'.live <==> Owned(s', b)
    {
      assert b in s.live <==> Owned(s, b);
      if b in e.blocks {
        assert s'.calls[e.t].blocks == e.blocks;
      }
      if t :| t in s.calls && b in s.calls[t].blocks {
        assert t in s'.calls && b in s'.calls[t].blocks;
      }
    }
  }

  lemma CommitKeeps(s: State, e: Event, s': State)
    requires Conserved(s) && e.Commit? && Next(s, e, s')
    ensures Conserved(s')
  {
    forall b
      ensures b in s'.live <==> Owned(s', b)
    {
      assert b in s.live <==> Owned(s, b);
      if t :| t in s.calls && b in s.calls[t].blocks {
        assert t == e.t || (t in s'.calls && b in s'.calls[t].blocks);
      }
      if t :| t in s'.calls && b in s'.calls[t].blocks {
        assert t in s.calls && b in s.calls[t].blocks;
      }
    }
  }

  function BlocksOf(s: State, t: int): set<int> {
    if t in s.calls then s.calls[t].blocks else {}
  }

  /** Steps that move no block. */
  lemma FrameKeeps(s: State, s': State)
    requires Conserved(s) && s'.ring == s.ring && s'.live == s.live
    requires forall t :: BlocksOf(s', t) == BlocksOf(s, t)
    requires forall t :: t in s'.calls && s'.calls[t].blocks != {} ==> s'.calls[t].pc.Looping? || s'.calls[t].pc.Ready?
    ensures Conserved(s')
  {
    forall b
      ensures b in s'.live <==> Owned(s', b)
    {
      assert b in s.live <==> Owned(s, b);
      if t :| t in s.calls && b in s.calls[t].blocks {
        assert b in BlocksOf(s', t);
      }
      if t :| t in s'.calls && b in s'.calls[t].blocks {
        assert b in BlocksOf(s, t);
      }
    }
    forall t, u | t in s'.calls && u in s'.calls && t != u
      ensures s'.calls[t].blocks !! s'.calls[u].blocks
    {
      assert BlocksOf(s, t) !! BlocksOf(s, u);
    }
    forall t | t in s'.calls
      ensures s'.calls[t].blocks !! s'.ring.blocks
    {
      assert BlocksOf(s, t) !! s.ring.blocks;
    }
  }

  lemma StepConserves(s: State, e: Event, s': State)
    requires Conserved(s) && Next(s, e, s')
    ensures Conserved(s')
  {
    if e.Commit? {
      CommitKeeps(s, e, s');
    } else if e.Alloc? && e.blocks != {} {
      AllocKeeps(s, e, s');
    } else {
      FrameKeeps(s, s');
    }
  }

  /** No interleaving of calls leaks a block or frees one twice. */
  lemma {:induction false} EveryRunConserves(ss: seq<State>, es: seq<Event>, i: nat)
    requires Run(ss, es) && i < |ss|
    ensures Conserved(ss[i])
    ensures ss[i].calls == map[] ==> ss[i].live == ss[i].ring.blocks
    decreases i
  {
    if i > 0 {
      EveryRunConserves(ss, es, i - 1);
      StepConserves(ss[i - 1], es[i - 1], ss[i]);
    }
    if ss[i].calls == map[] {
      forall b ensures b in ss[i].live <==> b in ss[i].ring.blocks { assert Owned(ss[i], b) <==> b in ss[i].ring.blocks; }
    }
  }

  /** As long as the ring stays mapped and the socket open through a run, the ring stays the same and all of
      its blocks stay allocated. */
  lemma {:induction false} MappedBlocksStay(ss: seq<State>, es: seq<Event>, lo: nat, hi: nat)
    requires Run(ss, es) && lo <= hi < |ss|
    requires forall i :: lo <= i < hi ==> ss[i].mapped > 0 && !(es[i].Commit? && es[i].closing)
    ensures ss[hi].ring == ss[lo].ring && ss[hi].ring.blocks <= ss[hi].live
    decreases hi
  {
    EveryRunConserves(ss, es, hi);
    OwnedIsLive(ss[hi], 0);
    if lo < hi {
      MappedBlocksStay(ss, es, lo, hi - 1);
      assert Next(ss[hi - 1], es[hi - 1], ss[hi]);
    }
  }

  // ---------------------------------------------------------------- layout

  /** The positions a ring runs through fit the blocks, laid out as its own request divides them. */
  predicate Fits(req: Req)
    requires req.frameSize > 0
  {
    RingPositions(req) <= FramesPerBlock(req) * req.blockNr
  }

  /** frames_per_block and the number of frames are right for the ring that is in place. */
  predicate LaidOut(s: State) {
    s.ring.blocks != {} ==> s.ring.req.frameSize > 0 && s.fpb == FramesPerBlock(s.ring.req) && Fits(s.ring.req)
  }

  /** Calls that ask for blocks passed the tests of their sizes. */
  ghost predicate CallsSized(s: State) {
    && (forall t :: t in s.calls && (s.calls[t].blocks != {} || !s.calls[t].pc.Ready?) ==> Sized(s.calls[t].req))
    && (s.ring.blocks != {} ==> Sized(s.ring.req))
  }

  lemma SizedStep(s: State, e: Event, s': State)
    requires CallsSized(s) && Next(s, e, s')
    ensures CallsSized(s')
  {
    forall t | t in s'.calls && (s'.calls[t].blocks != {} || !s'.calls[t].pc.Ready?)
      ensures Sized(s'.calls[t].req)
    {
      if t in s.calls {
        assert s'.calls[t].req == s.calls[t].req;
      }
    }
  }

  lemma {:induction false} SizedInEveryRun(ss: seq<State>, es: seq<Event>, i: nat)
    requires Run(ss, es) && i < |ss|
    ensures CallsSized(ss[i])
    decreases i
  {
    if i > 0 {
      SizedInEveryRun(ss, es, i - 1);
      SizedStep(ss[i - 1], es[i - 1], ss[i]);
    }
  }

  /** What frames_per_block was last set to. */
  function LastWritten(es: seq<Event>): nat {
    if es == [] then 0
    else if es[|es| - 1].Divide? then es[|es| - 1].quotient
    else LastWritten(es[..|es| - 1])
  }

  lemma {:induction false} LastWrittenIs(ss: seq<State>, es: seq<Event>, i: nat)
    requires Run(ss, es) && i < |ss|
    ensures ss[i].fpb == LastWritten(es[..i])
    decreases i
  {
    if i > 0 {
      LastWrittenIs(ss, es, i - 1);
      assert Next(ss[i - 1], es[i - 1], ss[i]);
      assert es[..i][..i - 1] == es[..i - 1];
    }
  }

  /** Event `k` puts a ring in place. */
  predicate Installs(ss: seq<State>, es: seq<Event>, k: nat)
    requires k < |es| < |ss|
  {
    && es[k].Commit? && es[k].t in ss[k].calls && (es[k].closing || ss[k].mapped == 0)
    && ss[k].calls[es[k].t].blocks != {} && Sized(ss[k].calls[es[k].t].req)
  }

  /** It does so after another call has divided otherwise. */
  predicate InstalledLate(ss: seq<State>, es: seq<Event>, k: nat)
    requires k < |es| < |ss|
  {
    Installs(ss, es, k) && LastWritten(es[..k]) != FramesPerBlock(ss[k].calls[es[k].t].req)
  }

  /** It does so for a request that its own quotient would have refused. */
  predicate InstalledUnfit(ss: seq<State>, es: seq<Event>, k: nat)
    requires k < |es| < |ss|
  {
    Installs(ss, es, k) && !Fits(ss[k].calls[es[k].t].req)
  }

  /** Event `k` divides otherwise while a ring is in place. */
  predicate DividedLate(ss: seq<State>, es: seq<Event>, k: nat)
    requires k < |es| < |ss|
  {
    es[k].Divide? && ss[k].ring.blocks != {} && Sized(ss[k].ring.req) && es[k].quotient != FramesPerBlock(ss[k].ring.req)
  }

  /** The layout is right throughout a run exactly when no ring is installed after another call's division or
      for a request that does not fit it, and no call divides otherwise after a ring is installed. */
  lemma {:induction false} LaidOutIff(ss: seq<State>, es: seq<Event>, n: nat)
    requires Run(ss, es) && n < |ss|
    ensures (forall i :: 0 <= i <= n ==> LaidOut(ss[i])) <==>
      forall k :: 0 <= k < n ==> !InstalledLate(ss, es, k) && !InstalledUnfit(ss, es, k) && !DividedLate(ss, es, k)
    decreases n
  {
    if n > 0 {
      LaidOutIff(ss, es, n - 1);
      LaidOutStep(ss, es, n - 1);
    }
  }

  lemma LaidOutStep(ss: seq<State>, es: seq<Event>, k: nat)
    requires Run(ss, es) && k < |es|
    ensures LaidOut(ss[k]) ==>
      (LaidOut(ss[k + 1]) <==> !InstalledLate(ss, es, k) && !InstalledUnfit(ss, es, k) && !DividedLate(ss, es, k))
  {
    LastWrittenIs(ss, es, k);
    SizedInEveryRun(ss, es, k);
    assert Next(ss[k], es[k], ss[k + 1]);
  }

  lemma MultipliedFits(req: Req)
    requires Sized(req) && req.blockNr > 0 && FramesPerBlock(req) > 0 && Multiplies(FramesPerBlock(req), req)
    ensures Fits(req)
  {
    RingStaysInBlocks(req);
  }

  /** Event `j` is one of the two tests of the call of `t` that stands at `n`, and it went by what another call
      had put into frames_per_block. */
  ghost predicate OvertakenTest(ss: seq<State>, es: seq<Event>, t: int, req: Req, j: int, n: int) {
    && 0 <= j < n <= |es| < |ss| && req.frameSize > 0
    && (es[j] == TestPositive(t) || es[j] == TestProduct(t)) && t in ss[j].calls && ss[j].calls[t].req == req
    && LastWritten(es[..j]) != FramesPerBlock(req)
    && forall m :: j < m < n ==> !(es[m].Begin? && es[m].t == t)
  }

  ghost predicate Overtaken(ss: seq<State>, es: seq<Event>, t: int, req: Req, n: int) {
    exists j :: OvertakenTest(ss, es, t, req, j, n)
  }

  /** What a call at this point would have to show of its own quotient, had nobody come between. */
  predicate OwnTests(call: Call) {
    && (!call.pc.Tested? && !call.pc.Divided? ==> Quotient(call.req) > 0)
    && (call.pc.Fitted? || call.pc.Looping? || call.pc.Ready? ==> Multiplies(Quotient(call.req), call.req))
  }

  lemma OvertakenStays(ss: seq<State>, es: seq<Event>, t: int, req: Req, n: nat)
    requires 0 < n <= |es| < |ss| && Overtaken(ss, es, t, req, n - 1) && !(es[n - 1].Begin? && es[n - 1].t == t)
    ensures Overtaken(ss, es, t, req, n)
  {
    var before := n - 1;
    var j :| OvertakenTest(ss, es, t, req, j, before);
    assert OvertakenTest(ss, es, t, req, j, n);
  }

  /** The call asks for blocks: it has them, or is on its way to them. */
  predicate ForBlocks(call: Call) {
    call.blocks != {} || !call.pc.Ready?
  }

  lemma SameCall(s: State, e: Event, s': State, t: int)
    requires Next(s, e, s') && t in s'.calls && ForBlocks(s'.calls[t])
    ensures !(e.Begin? && e.t == t) ==> t in s.calls && s.calls[t].req == s'.calls[t].req && ForBlocks(s.calls[t])
    ensures e.Begin? && e.t == t ==> s'.calls[t].req.blockNr > 0 && s'.calls[t].pc.Tested?
  {
  }

  lemma OwnTestsStep(s: State, e: Event, s': State, t: int)
    requires Next(s, e, s') && t in s.calls && t in s'.calls && ForBlocks(s.calls[t]) && OwnTests(s.calls[t])
    requires e == TestPositive(t) || e == TestProduct(t) ==> s.fpb == Quotient(s.calls[t].req)
    ensures OwnTests(s'.calls[t])
  {
    assert s'.calls[t].req == s.calls[t].req;
  }

  lemma {:induction false} PassedByOthers(ss: seq<State>, es: seq<Event>, t: int, n: nat)
    requires Run(ss, es) && n < |ss| && t in ss[n].calls && ForBlocks(ss[n].calls[t])
    ensures OwnTests(ss[n].calls[t]) || Overtaken(ss, es, t, ss[n].calls[t].req, n)
    decreases n
  {
    SameCall(ss[n - 1], es[n - 1], ss[n], t);
    if !(es[n - 1].Begin? && es[n - 1].t == t) {
      PassedByOthers(ss, es, t, n - 1);
      OneMoreStep(ss, es, t, n);
    }
  }

  lemma OneMoreStep(ss: seq<State>, es: seq<Event>, t: int, n: nat)
    requires Run(ss, es) && 0 < n < |ss| && t in ss[n - 1].calls && t in ss[n].calls && ForBlocks(ss[n - 1].calls[t])
    requires ss[n].calls[t].req == ss[n - 1].calls[t].req && !(es[n - 1].Begin? && es[n - 1].t == t)
    requires OwnTests(ss[n - 1].calls[t]) || Overtaken(ss, es, t, ss[n].calls[t].req, n - 1)
    ensures OwnTests(ss[n].calls[t]) || Overtaken(ss, es, t, ss[n].calls[t].req, n)
  {
    var s, e, req := ss[n - 1], es[n - 1], ss[n].calls[t].req;
    if Overtaken(ss, es, t, req, n - 1) {
      OvertakenStays(ss, es, t, req, n);
    } else if (e == TestPositive(t) || e == TestProduct(t)) && s.fpb != Quotient(req) {
      LastWrittenIs(ss, es, n - 1);
      SizedInEveryRun(ss, es, n - 1);
      assert OvertakenTest(ss, es, t, req, n - 1, n);
    } else {
      OwnTestsStep(s, e, ss[n], t);
    }
  }

  /** A ring with more frames than its blocks hold, or with no frame to a block, was let in by another call's
      division before one of its two tests. */
  lemma UnfitWasOvertaken(ss: seq<State>, es: seq<Event>, k: nat)
    requires Run(ss, es) && k < |es| && InstalledUnfit(ss, es, k)
    ensures Overtaken(ss, es, es[k].t, ss[k].calls[es[k].t].req, k)
  {
    var t := es[k].t;
    var req := ss[k].calls[t].req;
    assert Next(ss[k], es[k], ss[k + 1]);
    PassedByOthers(ss, es, t, k);
    if OwnTests(ss[k].calls[t]) {
      AskedForBlocks(ss, es, t, k);
      MultipliedFits(req);
    }
  }

  lemma {:induction false} AskedForBlocks(ss: seq<State>, es: seq<Event>, t: int, n: nat)
    requires Run(ss, es) && n < |ss| && t in ss[n].calls && ForBlocks(ss[n].calls[t])
    ensures ss[n].calls[t].req.blockNr > 0
    decreases n
  {
    SameCall(ss[n - 1], es[n - 1], ss[n], t);
    if !(es[n - 1].Begin? && es[n - 1].t == t) {
      AskedForBlocks(ss, es, t, n - 1);
    }
  }

  // ---------------------------------------------------------------- headers

  /** The header loop of event `k` is at the end of its block, and another call has set a larger bound. */
  predicate Overruns(ss: seq<State>, es: seq<Event>, k: nat)
    requires k < |es| < |ss|
  {
    && es[k].Header? && es[k].t in ss[k].calls && ss[k].calls[es[k].t].pc.Looping?
    && var call := ss[k].calls[es[k].t];
       && call.req.frameSize > 0 && call.pc.i < call.req.blockNr && call.pc.k == FramesPerBlock(call.req)
       && LastWritten(es[..k]) > FramesPerBlock(call.req)
  }

  ghost predicate LoopsInside(s: State) {
    forall t :: t in s.calls && s.calls[t].pc.Looping? && s.calls[t].req.frameSize > 0 ==> s.calls[t].pc.k <= FramesPerBlock(s.calls[t].req)
  }

  lemma HeaderStep(ss: seq<State>, es: seq<Event>, k: nat)
    requires Run(ss, es) && k < |es| && !ss[k].strayed && LoopsInside(ss[k])
    ensures ss[k + 1].strayed <==> Overruns(ss, es, k)
    ensures !ss[k + 1].strayed ==> LoopsInside(ss[k + 1])
  {
    LastWrittenIs(ss, es, k);
    assert Next(ss[k], es[k], ss[k + 1]);
  }

  lemma StrayedStays(s: State, e: Event, s': State)
    requires Next(s, e, s') && s.strayed
    ensures s'.strayed
  {
  }

  /** Headers stay inside the frames of their block exactly when no header loop at the end of a block finds
      the bound raised by another call. */
  lemma {:induction false} HeadersInsideIff(ss: seq<State>, es: seq<Event>, n: nat)
    requires Run(ss, es) && n < |ss|
    ensures !ss[n].strayed <==> forall k :: 0 <= k < n ==> !Overruns(ss, es, k)
    ensures !ss[n].strayed ==> LoopsInside(ss[n])
    decreases n
  {
    if n > 0 {
      HeadersInsideIff(ss, es, n - 1);
      if ss[n - 1].strayed {
        StrayedStays(ss[n - 1], es[n - 1], ss[n]);
      } else {
        HeaderStep(ss, es, n - 1);
      }
    }
  }

  // ---------------------------------------------------------------- one call at a time

  /** A call past its division has frames_per_block to itself. */
  predicate AloneCall(s: State, call: Call) {
    !(call.pc.Ready? && call.blocks == {}) ==>
      && s.ring.blocks == {} && call.req.blockNr > 0
      && (!call.pc.Tested? ==> s.fpb == Quotient(call.req))
      && (!call.pc.Tested? && !call.pc.Divided? ==> s.fpb > 0)
      && (call.pc.Fitted? || call.blocks != {} ==> Multiplies(s.fpb, call.req))
  }

  ghost predicate Alone(s: State) {
    && (forall t, u :: t in s.calls && u in s.calls ==> t == u)
    && forall t :: t in s.calls ==> AloneCall(s, s.calls[t])
  }

  /** The call that takes a step is the only one, before and after. */
  lemma OnlyCall(s: State, e: Event, s': State, t: int)
    requires Alone(s) && Next(s, e, s') && (e.Begin? ==> s.calls == map[]) && t in s'.calls
    ensures t in s.calls || (e.Begin? && e.t == t)
    ensures !e.Mmap? && !e.Munmap? ==> e.t == t
    ensures forall u :: u in s'.calls ==> u == t
  {
  }

  lemma AloneStep(s: State, e: Event, s': State)
    requires CallsSized(s) && Conserved(s) && Alone(s) && Next(s, e, s') && (e.Begin? ==> s.calls == map[])
    ensures Alone(s')
  {
    forall t | t in s'.calls
      ensures AloneCall(s', s'.calls[t]) && forall u :: u in s'.calls ==> u == t
    {
      OnlyCall(s, e, s', t);
      assert t in s.calls ==> AloneCall(s, s.calls[t]);
    }
  }

  ghost predicate Right(s: State) {
    LaidOut(s) && !s.strayed && Alone(s) && LoopsInside(s)
  }

  lemma RightStep(s: State, e: Event, s': State)
    requires CallsSized(s) && Conserved(s) && Right(s) && Next(s, e, s') && (e.Begin? ==> s.calls == map[])
    ensures Right(s')
  {
    AloneStep(s, e, s');
    AloneLaidOut(s, e, s');
    AloneInside(s, e, s');
  }

  /** Layout and headers are right in every run in which no call begins while another is under way. */
  lemma {:induction false} OneCallAtATime(ss: seq<State>, es: seq<Event>, i: nat)
    requires Run(ss, es) && i < |ss|
    requires forall k :: 0 <= k < |es| && es[k].Begin? ==> ss[k].calls == map[]
    ensures Right(ss[i])
    decreases i
  {
    if i > 0 {
      OneCallAtATime(ss, es, i - 1);
      SizedInEveryRun(ss, es, i - 1);
      EveryRunConserves(ss, es, i - 1);
      RightStep(ss[i - 1], es[i - 1], ss[i]);
    }
  }

  lemma AloneLaidOut(s: State, e: Event, s': State)
    requires CallsSized(s) && Conserved(s) && Alone(s) && LaidOut(s) && Next(s, e, s')
    ensures LaidOut(s')
  {
    if e.Commit? && s.calls[e.t].blocks != {} {
      MultipliedFits(s.calls[e.t].req);
    }
  }

  lemma AloneInside(s: State, e: Event, s': State)
    requires CallsSized(s) && Alone(s) && !s.strayed && LoopsInside(s) && Next(s, e, s')
    ensures !s'.strayed && LoopsInside(s')
  {
  }

  // ---------------------------------------------------------------- runs that go wrong

  ghost predicate Reachable(s: State) {
    exists ss, es :: Run(ss, es) && ss[|es|] == s
  }

  lemma ReachStart()
    ensures Reachable(Start)
  {
    var none: seq<Event> := [];
    assert Run([Start], none) && [Start][|none|] == Start;
  }

  lemma ReachStep(s: State, e: Event, s': State)
    requires Reachable(s) && Next(s, e, s')
    ensures Reachable(s')
  {
    var ss, es :| Run(ss, es) && ss[|es|] == s;
    var ss', es' := ss + [s'], es + [e];
    forall i | 0 <= i < |es'|
      ensures Next(ss'[i], es'[i], ss'[i + 1])
    {
      if i < |es| {
        assert ss'[i] == ss[i] && ss'[i + 1] == ss[i + 1] && es'[i] == es[i];
      }
    }
    assert ss'[|es'|] == s';
  }

  /** Left alone, the header loops end. */
  lemma {:induction false} LoopsEnd(s: State, t: int) returns (s': State)
    requires Reachable(s) && t in s.calls && s.calls[t].pc.Looping? && Sized(s.calls[t].req)
    ensures Reachable(s') && s' == At(s, t, Ready).(strayed := s'.strayed)
    decreases s.calls[t].req.blockNr - s.calls[t].pc.i, s.fpb - s.calls[t].pc.k
  {
    var s1 := Cleared(s, t);
    ReachStep(s, Header(t), s1);
    if s1.calls[t].pc.Ready? {
      s' := s1;
    } else {
      s' := LoopsEnd(s1, t);
    }
    assert s'.calls == s.calls[t := s.calls[t].(pc := Ready)];
  }

  /** A call tests and allocates, one block, going by what another call has put into frames_per_block. */
  lemma Allocates(s: State, t: int, b: int) returns (s': State)
    requires Reachable(s) && t in s.calls && s.calls[t].pc.Divided? && s.calls[t].req.blockNr == 1 && b !in s.live
    requires s.fpb > 0 && Multiplies(s.fpb, s.calls[t].req)
    ensures Reachable(s') && s' == Put(s, t, Call(s.calls[t].req, Looping(0, 0), {b})).(live := s.live + {b})
  {
    ReachStep(s, TestPositive(t), At(s, t, Positive));
    var s1 := At(s, t, Positive);
    ReachStep(s1, TestProduct(t), At(s1, t, Fitted));
    var s2 := At(s1, t, Fitted);
    s' := Put(s2, t, Call(s.calls[t].req, Looping(0, 0), {b})).(live := s.live + {b});
    ReachStep(s2, Alloc(t, {b}), s');
    assert s'.calls == s.calls[t := Call(s.calls[t].req, Looping(0, 0), {b})];
  }

  const Four := Req(4096, 1, 1024, 4)
  const Eight := Req(4096, 1, 512, 8)
  const FourAsEight := Req(4096, 1, 1024, 8)

  /** Two calls, for `first` and `second`, have passed the test for a ring, and the first has divided. */
  lemma TwoCalls(first: Req, second: Req) returns (s: State)
    requires Sized(first) && Sized(second) && first.blockNr == second.blockNr == 1
    ensures Reachable(s)
    ensures s == Start.(fpb := FramesPerBlock(first), calls := map[0 := Call(first, Divided, {}), 1 := Call(second, Tested, {})])
  {
    ReachStart();
    var s1 := Put(Start, 0, Call(first, Tested, {}));
    ReachStep(Start, Begin(0, first), s1);
    var s2 := Put(s1, 1, Call(second, Tested, {}));
    ReachStep(s1, Begin(1, second), s2);
    s := At(s2, 0, Divided).(fpb := FramesPerBlock(first));
    ReachStep(s2, Divide(0, FramesPerBlock(first)), s);
    assert s.calls == map[0 := Call(first, Divided, {}), 1 := Call(second, Tested, {})];
  }

  lemma DividesNow(s: State, t: int) returns (s': State)
    requires Reachable(s) && t in s.calls && s.calls[t].pc.Tested? && Sized(s.calls[t].req)
    ensures Reachable(s') && s' == At(s, t, Divided).(fpb := FramesPerBlock(s.calls[t].req))
  {
    s' := At(s, t, Divided).(fpb := FramesPerBlock(s.calls[t].req));
    ReachStep(s, Divide(t, FramesPerBlock(s.calls[t].req)), s');
  }

  /** A ring is installed and mapped, and only then a call that had found no ring divides. */
  lemma LayoutRace() returns (s: State)
    ensures Reachable(s) && s.mapped > 0 && s.ring == Ring({1}, Four) && s.fpb == 8 && !LaidOut(s)
  {
    var s1 := TwoCalls(Four, Eight);
    var s2 := Allocates(s1, 0, 1);
    var s3 := LoopsEnd(s2, 0);
    var s4 := Drop(s3, 0).(ring := Ring({1}, Four), live := s3.live - s3.ring.blocks);
    ReachStep(s3, Commit(0, false), s4);
    ReachStep(s4, Mmap, s4.(mapped := 1));
    s := DividesNow(s4.(mapped := 1), 1);
  }

  /** A call is accepted by another call's quotient and installs a ring of twice as many frames as it has room for. */
  lemma UnfitRing() returns (s: State)
    ensures Reachable(s) && s.ring == Ring({1}, FourAsEight) && !Fits(s.ring.req)
  {
    var s1 := TwoCalls(FourAsEight, Eight);
    var s2 := DividesNow(s1, 1);
    var s3 := Allocates(s2, 0, 1);
    var s4 := LoopsEnd(s3, 0);
    s := Drop(s4, 0).(ring := Ring({1}, FourAsEight), live := s4.live - s4.ring.blocks);
    ReachStep(s4, Commit(0, false), s);
  }

  /** A call's header loop runs past its block because another call has raised the bound. */
  lemma HeaderStrays() returns (s: State)
    ensures Reachable(s) && s.strayed
  {
    var s1 := TwoCalls(Four, Eight);
    var s2 := Allocates(s1, 0, 1);
    s := Clears(s2, 0, 4);
    s := DividesNow(s, 1);
    ReachStep(s, Header(0), Cleared(s, 0));
    s := Cleared(s, 0);
  }

  lemma {:induction false} Clears(s: State, t: int, n: nat) returns (s': State)
    requires Reachable(s) && t in s.calls && Sized(s.calls[t].req) && s.calls[t].pc.Looping?
    requires s.calls[t].pc.i < s.calls[t].req.blockNr && s.calls[t].pc.k + n <= s.fpb
    ensures Reachable(s')
    ensures s' == At(s, t, Looping(s.calls[t].pc.i, s.calls[t].pc.k + n)).(strayed := s'.strayed)
    decreases n
  {
    if n == 0 {
      s' := s;
    } else {
      ReachStep(s, Header(t), Cleared(s, t));
      s' := Clears(Cleared(s, t), t, n - 1);
    }
    assert s'.calls == At(s, t, Looping(s.calls[t].pc.i, s.calls[t].pc.k + n)).calls;
  }
}
