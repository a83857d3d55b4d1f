/** The access-controlled scull devices: who may open what, under any interleaving of openers. */
module AccessControl {
  import opened Basics

  const ENOMEM: int := 12
  const EBUSY: int := 16
  const EAGAIN: int := 11

  // ---------------------------------------------------------------- scullsingle: an atomic counter

  /** `failing` are the openers between a decrement that did not reach zero and the increment that undoes it. */
  datatype Single = Single(available: int, holders: set<int>, failing: set<int>)

  datatype SingleEvent = Decrement(pid: int) | Undo(pid: int) | SingleRelease(pid: int)

  ghost predicate SingleNext(s: Single, e: SingleEvent, s': Single) {
    match e
    case Decrement(pid) =>
      && pid !in s.holders && pid !in s.failing
      && s' == if s.available - 1 == 0 then Single(0, s.holders + {pid}, s.failing)
               else Single(s.available - 1, s.holders, s.failing + {pid})
    case Undo(pid) => pid in s.failing && s' == s.(available := s.available + 1, failing := s.failing - {pid})
    case SingleRelease(pid) => pid in s.holders && s' == s.(available := s.available + 1, holders := s.holders - {pid})
  }

  ghost predicate SingleInv(s: Single) {
    s.available == 1 - |s.holders| - |s.failing|
  }

  ghost predicate SingleRun(ss: seq<Single>, es: seq<SingleEvent>) {
    && |ss| == |es| + 1 && ss[0] == Single(1, {}, {})
    && forall i :: 0 <= i < |es| ==> SingleNext(ss[i], es[i], ss[i + 1])
  }

  lemma SingleStep(s: Single, e: SingleEvent, s': Single)
    requires SingleInv(s) && |s.holders| <= 1 && SingleNext(s, e, s')
    ensures SingleInv(s') && |s'.holders| <= 1
  {
  }

  /** However many openers race, at most one holds the device, and the counter is exact. */
  lemma {:induction false} AtMostOneHolder(ss: seq<Single>, es: seq<SingleEvent>, i: nat)
    requires SingleRun(ss, es) && i < |ss|
    ensures SingleInv(ss[i]) && |ss[i].holders| <= 1
    decreases i
  {
    if i > 0 {
      AtMostOneHolder(ss, es, i - 1);
      SingleStep(ss[i - 1], es[i - 1], ss[i]);
    }
  }

  /** An open succeeds exactly when nobody holds the device and nobody is backing out of a failed open: a
      free device may be refused while failed openers have yet to undo their decrement. */
  lemma OpenSucceedsIff(ss: seq<Single>, es: seq<SingleEvent>, i: nat, pid: int, s': Single)
    requires SingleRun(ss, es) && i < |ss| && SingleNext(ss[i], Decrement(pid), s')
    ensures pid in s'.holders <==> ss[i].holders == {} && ss[i].failing == {}
  {
    AtMostOneHolder(ss, es, i);
  }

  /** A run in which it is. */
  lemma FreeDeviceRefused() returns (ss: seq<Single>, es: seq<SingleEvent>)
    ensures SingleRun(ss, es) && |es| == 4 && ss[3].holders == {} && es[3] == Decrement(3) && 3 !in ss[4].holders
  {
    var s0, s1, s2 := Single(1, {}, {}), Single(0, {1}, {}), Single(-1, {1}, {2});
    var s3, s4 := Single(0, {}, {2}), Single(-1, {}, {2, 3});
    ss, es := [s0, s1, s2, s3, s4], [Decrement(1), Decrement(2), SingleRelease(1), Decrement(3)];
    assert s1.holders - {1} == {} && s3.failing + {3} == s4.failing;
    assert SingleNext(s0, es[0], s1) && SingleNext(s1, es[1], s2) && SingleNext(s2, es[2], s3) && SingleNext(s3, es[3], s4);
  }

  // ---------------------------------------------------------------- sculluid and scullwuid: an owner and a count

  // Credentials do not change while a call waits.
  datatype Cred = Cred(uid: int, euid: int, capable: bool)

  class Owned {
    var count: int
    var owner: int

    constructor ()
      ensures count == 0 && owner == 0
    {
      count, owner := 0, 0;
    }

    method Available(c: Cred) returns (ok: bool)
      ensures ok == MayOpen(count, owner, c)
    {
      ok := count == 0 || owner == c.uid || owner == c.euid || c.capable;
    }

    /** scull_u_open */
    method OpenU(c: Cred) returns (ret: int)
      modifies this
      ensures ret == if MayOpen(old(count), old(owner), c) then 0 else -EBUSY
      ensures ret == 0 <==> old(count) == 0 || c.uid == old(owner) || c.euid == old(owner) || c.capable
      ensures ret == 0 ==> count == old(count) + 1 && owner == if old(count) == 0 then c.uid else old(owner)
      ensures ret == 0 ==> Entitled(owner, c)
      ensures (count, owner) == if ret == 0 then Taken(old(count), old(owner), c) else (old(count), old(owner))
    {
      if count != 0 && owner != c.uid && owner != c.euid && !c.capable {
        return -EBUSY;
      }
      if count == 0 {
        owner := c.uid;
      }
      count := count + 1;
      ret := 0;
    }

    /** One round of the loop in scull_w_open; `None` means the caller goes to sleep and tries again. */
    method OpenW(c: Cred, nonblock: bool) returns (ret: Option<int>)
      modifies this
      ensures ret == if MayOpen(old(count), old(owner), c) then Some(0) else if nonblock then Some(-EAGAIN) else None
      ensures ret == Some(0) <==> old(count) == 0 || c.uid == old(owner) || c.euid == old(owner) || c.capable
      ensures ret == Some(0) ==> count == old(count) + 1 && owner == if old(count) == 0 then c.uid else old(owner)
      ensures ret == Some(0) ==> Entitled(owner, c)
      ensures (count, owner) == if ret == Some(0) then Taken(old(count), old(owner), c) else (old(count), old(owner))
    {
      var ok := Available(c);
      if !ok {
        return if nonblock then Some(-EAGAIN) else None;
      }
      if count == 0 {
        owner := c.uid;
      }
      count := count + 1;
      ret := Some(0);
    }

    method Release() returns (wakes: bool)
      modifies this
      ensures count == old(count) - 1 && owner == old(owner) && wakes == (count == 0)
    {
      count := count - 1;
      wakes := count == 0;
    }
  }

  predicate MayOpen(count: int, owner: int, c: Cred) {
    count == 0 || owner == c.uid || owner == c.euid || c.capable
  }

  function Taken(count: int, owner: int, c: Cred): (int, int) {
    (count + 1, if count == 0 then c.uid else owner)
  }

  /** Where a waiting call of scull_w_open stands: on the wait queue and about to test without the lock, asleep,
      or about to take the lock and test again. */
  datatype WaitPc = Queued(woken: bool) | Asleep(woken: bool) | Retrying

  datatype Waiter = Waiter(c: Cred, pc: WaitPc)

  /** Open handles with the credentials they were opened with, waiting calls, and releases that have brought the
      count to zero and have yet to wake the queue. */
  datatype Users = Users(count: int, owner: int, handles: map<int, Cred>, waiters: map<int, Waiter>, waking: set<int>)

  datatype UserEvent =
    | OpenCall(h: int, c: Cred, nonblock: bool)
    | Test(h: int)
    | Resume(h: int)
    | Retry(h: int)
    | Interrupted(h: int)
    | ReleaseCall(h: int)
    | WakeUp(h: int)

  /** A test under the lock: the call gets its handle, or goes to the wait queue. */
  function Tried(s: Users, h: int, c: Cred): Users {
    var (count, owner) := Taken(s.count, s.owner, c);
    if MayOpen(s.count, s.owner, c) then s.(count := count, owner := owner, handles := s.handles[h := c], waiters := s.waiters - {h})
    else s.(waiters := s.waiters[h := Waiter(c, Queued(false))])
  }

  function Woken(w: Waiter): Waiter {
    match w.pc
    case Queued(_) => w.(pc := Queued(true))
    case Asleep(_) => w.(pc := Asleep(true))
    case Retrying => w
  }

  ghost predicate UserNext(s: Users, e: UserEvent, s': Users) {
    match e
    case OpenCall(h, c, nonblock) =>
      && h !in s.handles && h !in s.waiters && h !in s.waking
      && s' == if nonblock && !MayOpen(s.count, s.owner, c) then s else Tried(s, h, c)
    case Test(h) =>
      && h in s.waiters && s.waiters[h].pc.Queued?
      && var w := s.waiters[h];
         s' == s.(waiters := s.waiters[h := w.(pc := if MayOpen(s.count, s.owner, w.c) then Retrying else Asleep(w.pc.woken))])
    case Resume(h) =>
      && h in s.waiters && s.waiters[h].pc == Asleep(true)
      && s' == s.(waiters := s.waiters[h := s.waiters[h].(pc := Queued(false))])
    case Retry(h) => h in s.waiters && s.waiters[h].pc.Retrying? && s' == Tried(s, h, s.waiters[h].c)
    case Interrupted(h) => h in s.waiters && !s.waiters[h].pc.Retrying? && s' == s.(waiters := s.waiters - {h})
    case ReleaseCall(h) =>
      && h in s.handles
      && s' == s.(count := s.count - 1, handles := s.handles - {h}, waking := if s.count - 1 == 0 then s.waking + {h} else s.waking)
    case WakeUp(h) =>
      && h in s.waking
      && s' == s.(waiters := map k | k in s.waiters :: Woken(s.waiters[k]), waking := s.waking - {h})
  }

  /** Every open handle was opened by the owner, by someone acting as the owner, or by a capable process. */
  predicate Entitled(owner: int, c: Cred) {
    c.uid == owner || c.euid == owner || c.capable
  }

  ghost predicate UserInv(s: Users) {
    && s.count == |s.handles|
    && (forall h :: h in s.handles ==> Entitled(s.owner, s.handles[h]))
    && forall h :: h in s.waiters ==> h !in s.handles
  }

  lemma UserStep(s: Users, e: UserEvent, s': Users)
    requires UserInv(s) && UserNext(s, e, s')
    ensures UserInv(s')
    ensures s.count != 0 && s'.count != 0 ==> s'.owner == s.owner
  {
    match e
    case OpenCall(h, c, nonblock) => TriedKeeps(s, h, c);
    case Retry(h) => TriedKeeps(s, h, s.waiters[h].c);
    case ReleaseCall(h) => OneFewer(s.handles, h);
    case _ =>
  }

  lemma OneMore(m: map<int, Cred>, h: int, c: Cred)
    requires h !in m
    ensures |m[h := c]| == |m| + 1
  {
    assert m[h := c].Keys == m.Keys + {h};
  }

  lemma OneFewer(m: map<int, Cred>, h: int)
    requires h in m
    ensures |m - {h}| == |m| - 1
  {
    assert (m - {h}).Keys == m.Keys - {h};
  }

  lemma TriedKeeps(s: Users, h: int, c: Cred)
    requires UserInv(s) && h !in s.handles
    ensures UserInv(Tried(s, h, c)) && (s.count != 0 ==> Tried(s, h, c).owner == s.owner)
  {
    OneMore(s.handles, h, c);
    if s.count == 0 {
      assert s.handles == map[];
    }
  }

  ghost predicate UserRun(ss: seq<Users>, es: seq<UserEvent>) {
    && |ss| == |es| + 1 && ss[0] == Users(0, ss[0].owner, map[], map[], {})
    && forall i :: 0 <= i < |es| ==> UserNext(ss[i], es[i], ss[i + 1])
  }

  /** The count is the number of open handles, and no handle is open that its opener was not entitled to. */
  lemma {:induction false} EveryHandleEntitled(ss: seq<Users>, es: seq<UserEvent>, i: nat)
    requires UserRun(ss, es) && i < |ss|
    ensures UserInv(ss[i])
    ensures forall h :: h in ss[i].handles ==>
      ss[i].handles[h].uid == ss[i].owner || ss[i].handles[h].euid == ss[i].owner || ss[i].handles[h].capable
    decreases i
  {
    if i > 0 {
      EveryHandleEntitled(ss, es, i - 1);
      UserStep(ss[i - 1], es[i - 1], ss[i]);
    }
  }

  /** Who gets in at once: anybody into a device nobody has open, and is its owner then; the owner, whoever acts as
      the owner, and a capable process into an open one.  Everybody else is sent away or waits. */
  lemma WhoGetsIn(ss: seq<Users>, es: seq<UserEvent>, i: nat)
    requires UserRun(ss, es) && i < |es| && es[i].OpenCall?
    ensures ss[i].handles == map[] ==> es[i].h in ss[i + 1].handles && ss[i + 1].owner == es[i].c.uid
    ensures ss[i].handles != map[] ==>
      && (es[i].h in ss[i + 1].handles <==> es[i].c.uid == ss[i].owner || es[i].c.euid == ss[i].owner || es[i].c.capable)
      && ss[i + 1].owner == ss[i].owner
    ensures es[i].h !in ss[i + 1].handles ==> ss[i + 1].handles == ss[i].handles && (es[i].h in ss[i + 1].waiters <==> !es[i].nonblock)
  {
    EveryHandleEntitled(ss, es, i);
    assert UserNext(ss[i], es[i], ss[i + 1]);
    assert ss[i].handles == map[] <==> |ss[i].handles| == 0;
  }

  lemma OwnerStep(ss: seq<Users>, es: seq<UserEvent>, i: nat)
    requires UserRun(ss, es) && i < |es| && ss[i].count != 0 && ss[i + 1].count != 0
    ensures ss[i + 1].owner == ss[i].owner
  {
    EveryHandleEntitled(ss, es, i);
    UserStep(ss[i], es[i], ss[i + 1]);
  }

  /** As long as the device stays open, its owner does not change. */
  lemma {:induction false} OwnerFixedWhileOpen(ss: seq<Users>, es: seq<UserEvent>, lo: nat, hi: nat)
    requires UserRun(ss, es) && lo <= hi < |ss| && forall i :: lo <= i <= hi ==> ss[i].count != 0
    ensures ss[hi].owner == ss[lo].owner
    decreases hi
  {
    if lo < hi {
      OwnerFixedWhileOpen(ss, es, lo, hi - 1);
      OwnerStep(ss, es, hi - 1);
    }
  }

  /** A call that sleeps and has not been woken may not open the device, or a release is about to wake it. */
  ghost predicate NoneStranded(s: Users) {
    forall h :: h in s.waiters && s.waiters[h].pc == Asleep(false) ==>
      !MayOpen(s.count, s.owner, s.waiters[h].c) || s.waking != {}
  }

  lemma StrandedStep(s: Users, e: UserEvent, s': Users)
    requires UserInv(s) && NoneStranded(s) && UserNext(s, e, s')
    ensures NoneStranded(s')
  {
    forall h | h in s'.waiters && s'.waiters[h].pc == Asleep(false) && MayOpen(s'.count, s'.owner, s'.waiters[h].c)
      ensures s'.waking != {}
    {
      if e.Test? && e.h == h {
        assert false;
      }
      assert h in s.waiters && s.waiters[h] == s'.waiters[h] && !e.WakeUp?;
      if MayOpen(s.count, s.owner, s.waiters[h].c) {
        assert s.waking <= s'.waking;
      } else {
        assert e.ReleaseCall? && e.h in s'.waking;
      }
    }
  }

  /** In every run: no sleeper is left behind, although releases wake the queue only after they have given up
      the lock. */
  lemma {:induction false} NoWakeupMissed(ss: seq<Users>, es: seq<UserEvent>, i: nat)
    requires UserRun(ss, es) && i < |ss|
    ensures NoneStranded(ss[i])
    decreases i
  {
    if i > 0 {
      NoWakeupMissed(ss, es, i - 1);
      EveryHandleEntitled(ss, es, i - 1);
      StrandedStep(ss[i - 1], es[i - 1], ss[i]);
    }
  }

  // ---------------------------------------------------------------- scullpriv: one device per terminal

  datatype Item = Item(key: int, dev: int)

  class Clones {
    var list: seq<Item>
    var next: int

    constructor ()
      ensures list == [] && next == 1
    {
      list, next := [], 1;
    }

    /** Looks for the key, and creates its device if it is missing; 0 when that fails. */
    method LookforDevice(key: int, memory: bool) returns (dev: int)
      modifies this
      ensures (list, next, dev) == Lookup(old(list), old(next), key, memory)
      ensures (exists i :: 0 <= i < |old(list)| && old(list)[i].key == key) ==> list == old(list) && Item(key, dev) in list
      ensures (forall i :: 0 <= i < |old(list)| ==> old(list)[i].key != key) ==>
        if memory then list == [Item(key, dev)] + old(list) && dev == old(next) else list == old(list) && dev == 0
    {
      var i := 0;
      while i < |list|
        invariant 0 <= i <= |list| && list == old(list) && next == old(next)
        invariant forall j :: 0 <= j < i ==> list[j].key != key
      {
        if list[i].key == key {
          return list[i].dev;
        }
        i := i + 1;
      }
      if !memory {
        return 0;
      }
      dev := next;
      next := next + 1;
      list := [Item(key, dev)] + list;
    }
  }

  function Position(list: seq<Item>, key: int): (p: nat)
    ensures p <= |list| && (p < |list| ==> list[p].key == key)
    ensures forall j :: 0 <= j < p ==> list[j].key != key
  {
    if list == [] || list[0].key == key then 0 else 1 + Position(list[1..], key)
  }

  function Lookup(list: seq<Item>, next: int, key: int, memory: bool): (seq<Item>, int, int) {
    var p := Position(list, key);
    if p < |list| then (list, next, list[p].dev)
    else if !memory then (list, next, 0)
    else ([Item(key, next)] + list, next + 1, next)
  }

  ghost predicate ClonesInv(list: seq<Item>, next: int) {
    && next > 0
    && (forall i :: 0 <= i < |list| ==> 0 < list[i].dev < next)
    && (forall i, j :: 0 <= i < j < |list| ==> list[i].key != list[j].key && list[i].dev != list[j].dev)
  }

  /** The list after a sequence of opens by terminals, and the device the last one got. */
  ghost function Opens(keys: seq<(int, bool)>): (r: (seq<Item>, int, int))
    ensures ClonesInv(r.0, r.1)
  {
    if keys == [] then ([], 1, 0)
    else
      var (list, next, _) := Opens(keys[..|keys| - 1]);
      var (key, memory) := keys[|keys| - 1];
      Lookup(list, next, key, memory)
  }

  /** The device of a new terminal is none of those there were. */
  lemma NewDevice(list: seq<Item>, next: int, key: int)
    requires ClonesInv(list, next) && forall i :: 0 <= i < |list| ==> list[i].key != key
    ensures var (list', next', dev) := Lookup(list, next, key, true);
      ClonesInv(list', next') && dev != 0 && list' == [Item(key, dev)] + list && forall i :: 0 <= i < |list| ==> list[i].dev != dev
  {
  }

  lemma FoundAgain(list: seq<Item>, next: int, key: int, memory: bool, key': int)
    requires Position(list, key') < |list|
    ensures var (list', _, _) := Lookup(list, next, key, memory);
      Position(list', key') < |list'| && list'[Position(list', key')].dev == list[Position(list, key')].dev
  {
    var p := Position(list, key);
    if p == |list| && memory {
      assert ([Item(key, next)] + list)[1..] == list;
    }
  }

  /** Once a terminal has a device, every later open from it gets the same one, whatever others do between. */
  lemma {:induction false} SameDeviceForever(keys: seq<(int, bool)>, i: nat, dev: int)
    requires i < |keys| && Opens(keys[..i + 1]).2 == dev != 0
    ensures Position(Opens(keys).0, keys[i].0) < |Opens(keys).0|
    ensures Opens(keys).0[Position(Opens(keys).0, keys[i].0)].dev == dev
    decreases |keys|
  {
    var front := keys[..|keys| - 1];
    var (list, next, _) := Opens(front);
    if i == |keys| - 1 {
      assert keys[..i + 1] == keys;
    } else {
      assert keys[..i + 1] == front[..i + 1];
      SameDeviceForever(front, i, dev);
      FoundAgain(list, next, keys[|keys| - 1].0, keys[|keys| - 1].1, keys[i].0);
    }
  }
}
