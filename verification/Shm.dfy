/** System V shared memory: the id table of one IPC namespace.
    The pure functions on `Ns` say what each entry point does to the table; the class
    `IpcNamespace` below carries the same fields as the C code and updates them in place. */
module Shm {
  import opened Basics
  import opened Totals

  const PAGE_SIZE: nat := 4096
  const SHMMIN: nat := 1
  const IPC_PRIVATE: int := 0

  const S_IRWXUGO: bv16 := 0x1FF
  const SHM_DEST: bv16 := 0x200
  const SHM_LOCKED: bv16 := 0x400

  const EPERM: int := 1
  const ENOENT: int := 2
  const ENOMEM: int := 12
  const EACCES: int := 13
  const EEXIST: int := 17
  const EINVAL: int := 22
  const ENOSPC: int := 28

  datatype Segment = Segment(key: int, mode: bv16, segsz: nat, nattch: int)

  /** `tot` is counted in pages; `ctlmax` bounds one segment in bytes, `ctlall` all of them in pages. */
  datatype Ns = Ns(segs: map<int, Segment>, tot: int, ctlmax: nat, ctlall: nat)

  /** What the helpers outside this file answer while a segment is being created:
      memory for the descriptor, a shmem file, and a free id. */
  datatype NewsegEnv = NewsegEnv(memory: bool, file: bool, slot: Option<int>)

  function NumPages(size: nat): nat {
    (size + PAGE_SIZE - 1) / PAGE_SIZE
  }

  predicate Marked(seg: Segment) {
    seg.mode & SHM_DEST != 0
  }

  function LockedMode(mode: bv16, lock: bool): bv16 {
    if lock then mode | SHM_LOCKED else mode & !SHM_LOCKED
  }

  function PermissionMode(mode: bv16, requested: bv16): bv16 {
    (mode & !S_IRWXUGO) | (requested & S_IRWXUGO)
  }

  function Attach(ns: Ns, id: int): Ns
    requires id in ns.segs
  {
    ns.(segs := ns.segs[id := ns.segs[id].(nattch := ns.segs[id].nattch + 1)])
  }

  function Destroy(ns: Ns, id: int): Ns
    requires id in ns.segs
  {
    ns.(segs := ns.segs - {id}, tot := ns.tot - NumPages(ns.segs[id].segsz))
  }

  /** One attach less; the last one takes a marked segment with it. */
  function Detach(ns: Ns, id: int): Ns
    requires id in ns.segs
  {
    var seg := ns.segs[id].(nattch := ns.segs[id].nattch - 1);
    var ns' := ns.(segs := ns.segs[id := seg]);
    if seg.nattch == 0 && Marked(seg) then Destroy(ns', id) else ns'
  }

  function Rmid(ns: Ns, id: int): Ns
    requires id in ns.segs
  {
    if ns.segs[id].nattch != 0 then
      ns.(segs := ns.segs[id := ns.segs[id].(mode := ns.segs[id].mode | SHM_DEST, key := IPC_PRIVATE)])
    else
      Destroy(ns, id)
  }

  function SetMode(ns: Ns, id: int, mode: bv16): Ns
    requires id in ns.segs
  {
    ns.(segs := ns.segs[id := ns.segs[id].(mode := PermissionMode(ns.segs[id].mode, mode))])
  }

  function SetLocked(ns: Ns, id: int, lock: bool): Ns
    requires id in ns.segs
  {
    ns.(segs := ns.segs[id := ns.segs[id].(mode := LockedMode(ns.segs[id].mode, lock))])
  }

  /** A fresh table entry, or the error that stopped its creation. */
  function Create(ns: Ns, key: int, size: nat, mode: bv16, env: NewsegEnv): (r: (Ns, int))
  {
    if size < SHMMIN || size > ns.ctlmax then (ns, -EINVAL)
    else if ns.tot + NumPages(size) > ns.ctlall then (ns, -ENOSPC)
    else if !env.memory || !env.file then (ns, -ENOMEM)
    else if env.slot.None? then (ns, -ENOSPC)
    else
      (ns.(segs := ns.segs[env.slot.value := Segment(key, mode & S_IRWXUGO, size, 0)],
           tot := ns.tot + NumPages(size)),
       env.slot.value)
  }

  ghost predicate Names(ns: Ns, key: int, id: int) {
    id in ns.segs && ns.segs[id].key == key
  }

  /** The relation sys_shmget establishes; `id` is the entry the key lookup found, if any. */
  ghost predicate Got(ns: Ns, key: int, size: nat, mode: bv16, create: bool, excl: bool, permitted: bool,
                      env: NewsegEnv, ns': Ns, ret: int)
  {
    if key == IPC_PRIVATE then
      (ns', ret) == Create(ns, key, size, mode, env)
    else if !exists id :: Names(ns, key, id) then
      if create then (ns', ret) == Create(ns, key, size, mode, env) else ns' == ns && ret == -ENOENT
    else
      && ns' == ns
      && exists id :: Names(ns, key, id) && ret ==
           if create && excl then -EEXIST
           else if ns.segs[id].segsz < size then -EINVAL
           else if !permitted then -EACCES
           else id
  }

  // ---------------------------------------------------------------- what the table keeps

  ghost function Pages(): Segment -> nat {
    (seg: Segment) => NumPages(seg.segsz)
  }

  ghost predicate Budgeted(ns: Ns) {
    ns.tot == Total(ns.segs, Pages()) && ns.tot <= ns.ctlall
  }

  ghost predicate KeysUnique(ns: Ns) {
    forall a, b :: a in ns.segs && b in ns.segs && ns.segs[a].key == ns.segs[b].key != IPC_PRIVATE ==> a == b
  }

  ghost predicate MarkedHeld(ns: Ns) {
    forall id :: id in ns.segs && Marked(ns.segs[id]) ==> ns.segs[id].nattch > 0 && ns.segs[id].key == IPC_PRIVATE
  }

  ghost predicate TableInv(ns: Ns) {
    Budgeted(ns) && KeysUnique(ns) && MarkedHeld(ns)
  }

  lemma PutKeepsBudget(ns: Ns, id: int, seg: Segment)
    requires Budgeted(ns) && id in ns.segs && seg.segsz == ns.segs[id].segsz
    ensures Budgeted(ns.(segs := ns.segs[id := seg]))
  {
    TotalPut(ns.segs, Pages(), id, seg);
  }

  lemma DestroyKeeps(ns: Ns, id: int)
    requires Budgeted(ns) && KeysUnique(ns) && id in ns.segs
    requires forall other :: other in ns.segs && other != id && Marked(ns.segs[other]) ==>
      ns.segs[other].nattch > 0 && ns.segs[other].key == IPC_PRIVATE
    ensures TableInv(Destroy(ns, id))
  {
    TotalTake(ns.segs, Pages(), id);
  }

  lemma DetachKeeps(ns: Ns, id: int)
    requires TableInv(ns) && id in ns.segs && ns.segs[id].nattch > 0
    ensures TableInv(Detach(ns, id))
  {
    var seg := ns.segs[id].(nattch := ns.segs[id].nattch - 1);
    PutKeepsBudget(ns, id, seg);
    var ns' := ns.(segs := ns.segs[id := seg]);
    if seg.nattch == 0 && Marked(seg) {
      DestroyKeeps(ns', id);
    }
  }

  lemma MarkSets(mode: bv16)
    ensures (mode | SHM_DEST) & SHM_DEST != 0
  {
  }

  /** What IPC_RMID leaves behind: a marked private segment with the same attaches, or nothing. */
  lemma RmidMarks(ns: Ns, id: int)
    requires id in ns.segs
    ensures id in Rmid(ns, id).segs <==> ns.segs[id].nattch != 0
    ensures id in Rmid(ns, id).segs ==>
      var seg := Rmid(ns, id).segs[id];
      Marked(seg) && seg.key == IPC_PRIVATE && seg.nattch == ns.segs[id].nattch && seg.segsz == ns.segs[id].segsz
  {
    MarkSets(ns.segs[id].mode);
  }

  lemma RmidKeeps(ns: Ns, id: int)
    requires TableInv(ns) && id in ns.segs && ns.segs[id].nattch >= 0
    ensures TableInv(Rmid(ns, id))
  {
    if ns.segs[id].nattch == 0 {
      DestroyKeeps(ns, id);
    } else {
      RmidMarks(ns, id);
      MarkKeeps(ns, id, Rmid(ns, id).segs[id]);
    }
  }

  lemma MarkKeeps(ns: Ns, id: int, seg: Segment)
    requires TableInv(ns) && id in ns.segs && seg.segsz == ns.segs[id].segsz && seg.nattch > 0 && seg.key == IPC_PRIVATE
    ensures TableInv(ns.(segs := ns.segs[id := seg]))
  {
    PutKeepsBudget(ns, id, seg);
  }

  /** Neither IPC_SET nor SHM_LOCK/UNLOCK touches the destroy mark, whatever mode the caller passes. */
  lemma MarkSurvives(seg: Segment, requested: bv16, lock: bool)
    ensures Marked(seg.(mode := PermissionMode(seg.mode, requested))) == Marked(seg)
    ensures Marked(seg.(mode := LockedMode(seg.mode, lock))) == Marked(seg)
  {
  }

  lemma RemodeKeeps(ns: Ns, id: int, mode: bv16)
    requires TableInv(ns) && id in ns.segs
    requires Marked(ns.segs[id].(mode := mode)) == Marked(ns.segs[id])
    ensures TableInv(ns.(segs := ns.segs[id := ns.segs[id].(mode := mode)]))
  {
    PutKeepsBudget(ns, id, ns.segs[id].(mode := mode));
  }

  /** The id is new, and so is the key unless it is the private one. */
  ghost predicate Unused(ns: Ns, key: int, env: NewsegEnv) {
    (env.slot.Some? ==> env.slot.value !in ns.segs) && (key == IPC_PRIVATE || !exists id :: Names(ns, key, id))
  }

  lemma CreateKeeps(ns: Ns, key: int, size: nat, mode: bv16, env: NewsegEnv)
    requires TableInv(ns) && Unused(ns, key, env)
    ensures TableInv(Create(ns, key, size, mode, env).0)
  {
    var ns' := Create(ns, key, size, mode, env).0;
    if ns' != ns {
      var seg := Segment(key, mode & S_IRWXUGO, size, 0);
      TotalPut(ns.segs, Pages(), env.slot.value, seg);
      assert !Marked(seg);
      assert forall id :: id in ns.segs && ns.segs[id].key == key ==> Names(ns, key, id);
    }
  }

  lemma AttachKeeps(ns: Ns, id: int)
    requires TableInv(ns) && id in ns.segs && ns.segs[id].nattch >= 0
    ensures TableInv(Attach(ns, id))
  {
    PutKeepsBudget(ns, id, ns.segs[id].(nattch := ns.segs[id].nattch + 1));
  }

  /** A pin that is released again leaves no trace, unless it was the last hold on a removed segment. */
  lemma PinAndRelease(ns: Ns, id: int)
    requires id in ns.segs && (Marked(ns.segs[id]) ==> ns.segs[id].nattch != 0)
    ensures Detach(Attach(ns, id), id) == ns
  {
    assert ns.segs[id := ns.segs[id]] == ns.segs;
    assert Attach(ns, id).segs[id := ns.segs[id]] == ns.segs;
  }

  /** Pinning, mapping and unpinning come to one attach. */
  lemma PinMapRelease(ns: Ns, id: int)
    requires id in ns.segs && ns.segs[id].nattch >= 0
    ensures Detach(Attach(Attach(ns, id), id), id) == Attach(ns, id)
  {
    PinAndRelease(Attach(ns, id), id);
  }

  /** The table invariant, and no count below zero. */
  ghost predicate Sound(ns: Ns) {
    TableInv(ns) && forall id :: id in ns.segs ==> ns.segs[id].nattch >= 0
  }

  lemma ModeKeeps(ns: Ns, id: int, mode: bv16)
    ensures id in ns.segs ==> Marked(SetMode(ns, id, mode).segs[id]) == Marked(ns.segs[id])
    ensures id in ns.segs && Sound(ns) ==> Sound(SetMode(ns, id, mode))
  {
    if id in ns.segs {
      MarkSurvives(ns.segs[id], mode, false);
      if Sound(ns) {
        RemodeKeeps(ns, id, PermissionMode(ns.segs[id].mode, mode));
      }
    }
  }

  lemma LockKeeps(ns: Ns, id: int, lock: bool)
    ensures id in ns.segs ==> Marked(SetLocked(ns, id, lock).segs[id]) == Marked(ns.segs[id])
    ensures id in ns.segs && Sound(ns) ==> Sound(SetLocked(ns, id, lock))
  {
    if id in ns.segs {
      MarkSurvives(ns.segs[id], 0, lock);
      if Sound(ns) {
        RemodeKeeps(ns, id, LockedMode(ns.segs[id].mode, lock));
      }
    }
  }

  // ---------------------------------------------------------------- what callers can rely on

  /** A segment takes the least number of pages that holds it. */
  lemma PagesHold(size: nat, pages: nat)
    ensures size <= NumPages(size) * PAGE_SIZE < size + PAGE_SIZE
    ensures size <= pages * PAGE_SIZE < size + PAGE_SIZE ==> NumPages(size) == pages
  {
  }

  /** A creation in plain terms; `pages` is the least number of pages that holds `size` bytes. */
  ghost predicate Created(ns: Ns, key: int, size: nat, mode: bv16, env: NewsegEnv, pages: nat, ns': Ns, ret: int) {
    if size == 0 || size > ns.ctlmax then ret == -EINVAL && ns' == ns
    else if ns.tot + pages > ns.ctlall then ret == -ENOSPC && ns' == ns
    else if !(env.memory && env.file) then ret == -ENOMEM && ns' == ns
    else if env.slot == None then ret == -ENOSPC && ns' == ns
    else
      && env.slot == Some(ret) && ns' == ns.(segs := ns'.segs, tot := ns.tot + pages)
      && ns'.segs.Keys == ns.segs.Keys + {ret} && (forall id :: id in ns.segs && id != ret ==> ns'.segs[id] == ns.segs[id])
      && ns'.segs[ret].key == key && ns'.segs[ret].segsz == size && ns'.segs[ret].nattch == 0
      && ns'.segs[ret].mode & 0x1FF == mode & 0x1FF && ns'.segs[ret].mode <= 0x1FF
  }

  /** What newseg creates, and why it refuses to. */
  lemma CreateOutcome(ns: Ns, key: int, size: nat, mode: bv16, env: NewsegEnv, pages: nat)
    requires size <= pages * PAGE_SIZE < size + PAGE_SIZE
    ensures Created(ns, key, size, mode, env, pages, Create(ns, key, size, mode, env).0, Create(ns, key, size, mode, env).1)
  {
    PagesHold(size, pages);
  }

  /** What shmget answers for a key that names a segment, and that it leaves the table alone then. */
  lemma ExistingAnswer(ns: Ns, key: int, size: nat, mode: bv16, create: bool, excl: bool, permitted: bool,
                       env: NewsegEnv, ns': Ns, ret: int, id: int)
    requires KeysUnique(ns) && key != IPC_PRIVATE && id in ns.segs && ns.segs[id].key == key
    requires Got(ns, key, size, mode, create, excl, permitted, env, ns', ret)
    ensures ns' == ns
    ensures create && excl ==> ret == -EEXIST
    ensures !(create && excl) && ns.segs[id].segsz < size ==> ret == -EINVAL
    ensures !(create && excl) && ns.segs[id].segsz >= size ==> ret == if permitted then id else -EACCES
  {
    assert Names(ns, key, id);
  }

  /** What it answers for a key that names none. */
  lemma MissingAnswer(ns: Ns, key: int, size: nat, mode: bv16, create: bool, excl: bool, permitted: bool,
                      env: NewsegEnv, ns': Ns, ret: int, pages: nat)
    requires size <= pages * PAGE_SIZE < size + PAGE_SIZE
    requires key == IPC_PRIVATE || forall id :: id in ns.segs ==> ns.segs[id].key != key
    requires Got(ns, key, size, mode, create, excl, permitted, env, ns', ret)
    ensures key != IPC_PRIVATE && !create ==> ret == -ENOENT && ns' == ns
    ensures key == IPC_PRIVATE || create ==> Created(ns, key, size, mode, env, pages, ns', ret)
  {
    CreateOutcome(ns, key, size, mode, env, pages);
    assert key != IPC_PRIVATE ==> !exists id :: Names(ns, key, id);
  }

  /** A segment just created under a key is what the next shmget of that key finds. */
  lemma CreateThenGet(ns: Ns, key: int, size: nat, mode: bv16, permitted: bool, env: NewsegEnv, ns1: Ns, id: int,
                      size': nat, mode': bv16, create': bool, env': NewsegEnv, ns2: Ns, ret: int)
    requires TableInv(ns) && Unused(ns, key, env) && key != IPC_PRIVATE
    requires Got(ns, key, size, mode, true, false, permitted, env, ns1, id) && id >= 0 && size' <= size
    requires Got(ns1, key, size', mode', create', false, true, env', ns2, ret)
    ensures ret == id && ns2 == ns1
  {
    CreateKeeps(ns, key, size, mode, env);
    CreateOutcome(ns, key, size, mode, env, NumPages(size));
    assert Names(ns1, key, id);
  }

  /** IPC_SET replaces the nine permission bits by those asked for and keeps every other bit. */
  lemma PermissionBits(mode: bv16, requested: bv16)
    ensures PermissionMode(mode, requested) & 0x1FF == requested & 0x1FF
    ensures PermissionMode(mode, requested) & 0xFE00 == mode & 0xFE00
  {
    assert mode & !S_IRWXUGO == mode & 0xFE00;
  }

  /** SHM_LOCK sets the lock bit and SHM_UNLOCK clears it; every other bit stays. */
  lemma LockBits(mode: bv16)
    ensures LockedMode(mode, true) & 0x400 == 0x400 && LockedMode(mode, true) & 0xFBFF == mode & 0xFBFF
    ensures LockedMode(mode, false) & 0x400 == 0 && LockedMode(mode, false) & 0xFBFF == mode & 0xFBFF
  {
    SetBit(mode);
    ClearBit(mode);
  }

  lemma SetBit(mode: bv16)
    ensures LockedMode(mode, true) & 0x400 == 0x400 && LockedMode(mode, true) & 0xFBFF == mode & 0xFBFF
  {
    assert (mode | 0x400) & 0x400 == 0x400;
    assert (mode | 0x400) & 0xFBFF == mode & 0xFBFF;
  }

  lemma ClearBit(mode: bv16)
    ensures LockedMode(mode, false) & 0x400 == 0 && LockedMode(mode, false) & 0xFBFF == mode & 0xFBFF
  {
    var rest: bv16 := 0xFBFF;
    assert !SHM_LOCKED == rest;
    assert (mode & rest) & 0x400 == 0;
    assert (mode & rest) & rest == mode & rest;
  }

  // ---------------------------------------------------------------- the namespace

  /** The namespace as the kernel keeps it.  Each method runs under the locks its C
      counterpart takes, so one call is one atomic step. */
  class IpcNamespace {
    var segs: map<int, Segment>
    var shm_tot: int
    const shm_ctlmax: nat
    const shm_ctlall: nat

    constructor (ctlmax: nat, ctlall: nat)
      ensures View() == Ns(map[], 0, ctlmax, ctlall)
    {
      segs, shm_tot, shm_ctlmax, shm_ctlall := map[], 0, ctlmax, ctlall;
    }

    function View(): Ns
      reads this
    {
      Ns(segs, shm_tot, shm_ctlmax, shm_ctlall)
    }

    method ShmDestroy(id: int)
      requires id in segs
      modifies this
      ensures View() == Destroy(old(View()), id)
      ensures old(Budgeted(View())) ==> Budgeted(View())
      ensures forall other :: other != id ==> (other in segs <==> other in old(segs)) && (other in segs ==> segs[other] == old(segs)[other])
    {
      TotalTake(segs, Pages(), id);
      shm_tot := shm_tot - (segs[id].segsz + PAGE_SIZE - 1) / PAGE_SIZE;
      segs := segs - {id};
    }

    method DoShmRmid(id: int)
      requires id in segs
      modifies this
      ensures View() == Rmid(old(View()), id)
      ensures id in segs <==> old(segs[id].nattch) != 0
      ensures id in segs ==> Marked(segs[id]) && segs[id].key == IPC_PRIVATE && segs[id].nattch == old(segs[id].nattch)
      ensures old(TableInv(View()) && segs[id].nattch >= 0) ==> TableInv(View())
    {
      ghost var ns := View();
      if segs[id].nattch != 0 {
        MarkForDestruction(id);
      } else {
        ShmDestroy(id);
      }
      RmidMarks(ns, id);
      if TableInv(ns) && ns.segs[id].nattch >= 0 {
        RmidKeeps(ns, id);
      }
    }

    method MarkForDestruction(id: int)
      requires id in segs && segs[id].nattch != 0
      modifies this`segs
      ensures View() == Rmid(old(View()), id)
    {
      segs := segs[id := segs[id].(mode := segs[id].mode | SHM_DEST)];
      segs := segs[id := segs[id].(key := IPC_PRIVATE)];
      assert segs == old(segs)[id := segs[id]];
    }

    /** The precondition is the negation of BUG_ON(!shp). */
    method ShmInc(id: int)
      requires id in segs
      modifies this
      ensures View() == Attach(old(View()), id)
      ensures old(TableInv(View()) && segs[id].nattch >= 0) ==> TableInv(View())
    {
      if TableInv(View()) && segs[id].nattch >= 0 {
        AttachKeeps(View(), id);
      }
      segs := segs[id := segs[id].(nattch := segs[id].nattch + 1)];
    }

    /** Shared by shm_close and by the end of do_shmat; same BUG_ON. */
    method ShmClose(id: int)
      requires id in segs
      modifies this
      ensures View() == Detach(old(View()), id)
      ensures id !in segs <==> old(segs[id].nattch == 1 && Marked(segs[id]))
      ensures old(TableInv(View()) && segs[id].nattch > 0) ==> TableInv(View())
    {
      if TableInv(View()) && segs[id].nattch > 0 {
        DetachKeeps(View(), id);
      }
      segs := segs[id := segs[id].(nattch := segs[id].nattch - 1)];
      if segs[id].nattch == 0 && segs[id].mode & SHM_DEST != 0 {
        ShmDestroy(id);
      }
    }

    method Newseg(key: int, size: nat, mode: bv16, env: NewsegEnv) returns (ret: int)
      modifies this
      ensures (View(), ret) == Create(old(View()), key, size, mode, env)
      ensures forall pages: nat :: size <= pages * PAGE_SIZE < size + PAGE_SIZE ==>
        Created(old(View()), key, size, mode, env, pages, View(), ret)
      ensures old(TableInv(View())) && Unused(old(View()), key, env) ==> TableInv(View())
    {
      if TableInv(View()) && Unused(View(), key, env) {
        CreateKeeps(View(), key, size, mode, env);
      }
      forall pages: nat | size <= pages * PAGE_SIZE < size + PAGE_SIZE
        ensures Created(View(), key, size, mode, env, pages, Create(View(), key, size, mode, env).0, Create(View(), key, size, mode, env).1)
      {
        CreateOutcome(View(), key, size, mode, env, pages);
      }
      var numpages := (size + PAGE_SIZE - 1) / PAGE_SIZE;
      if size < SHMMIN || size > shm_ctlmax {
        return -EINVAL;
      }
      if shm_tot + numpages > shm_ctlall {
        return -ENOSPC;
      }
      if !env.memory {
        return -ENOMEM;
      }
      if !env.file {
        return -ENOMEM;
      }
      if env.slot.None? {
        return -ENOSPC;
      }
      segs := segs[env.slot.value := Segment(key, mode & S_IRWXUGO, size, 0)];
      shm_tot := shm_tot + numpages;
      ret := env.slot.value;
    }

    method SysShmget(key: int, size: nat, mode: bv16, create: bool, excl: bool, permitted: bool, env: NewsegEnv)
      returns (ret: int)
      modifies this
      ensures Got(old(View()), key, size, mode, create, excl, permitted, env, View(), ret)
    {
      if key == IPC_PRIVATE {
        ret := Newseg(key, size, mode, env);
      } else if forall id | id in segs :: segs[id].key != key {
        if !create {
          ret := -ENOENT;
        } else {
          ret := Newseg(key, size, mode, env);
        }
      } else {
        var id :| id in segs && segs[id].key == key;
        assert Names(View(), key, id);
        if create && excl {
          ret := -EEXIST;
        } else if segs[id].segsz < size {
          ret := -EINVAL;
        } else if !permitted {
          ret := -EACCES;
        } else {
          ret := id;
        }
      }
    }

    /** shmget twice: the second call finds what the first has created, even if it might create as well. */
    method CreateAndFind(key: int, size: nat, mode: bv16, env: NewsegEnv, create: bool) returns (id: int, ret: int)
      requires TableInv(View()) && key != IPC_PRIVATE && Unused(View(), key, env)
      modifies this
      ensures id >= 0 ==> ret == id && id in segs && segs[id].key == key && segs[id].segsz == size && segs[id].nattch == 0
    {
      ghost var ns := View();
      id := SysShmget(key, size, mode, true, false, true, env);
      ghost var ns1 := View();
      ret := SysShmget(key, size, mode, create, false, true, env);
      if id >= 0 {
        CreateThenGet(ns, key, size, mode, true, env, ns1, id, size, mode, create, env, View(), ret);
        CreateOutcome(ns, key, size, mode, env, NumPages(size));
      }
    }

    /** do_shmat up to the point where it drops the segment lock for the first time. */
    method DoShmatPin(shmid: int, permitted: bool) returns (ret: int)
      modifies this
      ensures ret == if shmid !in old(segs) then -EINVAL else if !permitted then -EACCES else 0
      ensures View() == if ret == 0 then Attach(old(View()), shmid) else old(View())
    {
      if shmid !in segs {
        return -EINVAL;
      }
      if !permitted {
        return -EACCES;
      }
      segs := segs[shmid := segs[shmid].(nattch := segs[shmid].nattch + 1)];
      ret := 0;
    }

    /** do_shmat with nothing in between; `mapped` says whether do_mmap succeeds.  A failed call leaves no trace and
        a successful one attaches once, although the count goes up, up again and down. */
    method DoShmat(shmid: int, permitted: bool, mapped: bool) returns (ret: int)
      requires Sound(View())
      modifies this
      ensures Sound(View())
      ensures ret == if shmid !in old(segs) then -EINVAL else if !permitted then -EACCES else if !mapped then -ENOMEM else 0
      ensures View() == if ret == 0 then Attach(old(View()), shmid) else old(View())
    {
      ret := DoShmatPin(shmid, permitted);
      if ret != 0 {
        return;
      }
      PinAndRelease(old(View()), shmid);
      PinMapRelease(old(View()), shmid);
      AttachKeeps(old(View()), shmid);
      if mapped {
        ShmInc(shmid);
      }
      ShmClose(shmid);
      ret := if mapped then 0 else -ENOMEM;
    }

    method ShmctlRmid(shmid: int, permitted: bool) returns (err: int)
      modifies this
      ensures err == if shmid !in old(segs) then -EINVAL else if !permitted then -EPERM else 0
      ensures View() == if err == 0 then Rmid(old(View()), shmid) else old(View())
      ensures old(Sound(View())) ==> Sound(View())
    {
      if shmid in segs && Sound(View()) {
        RmidKeeps(View(), shmid);
      }
      if shmid !in segs {
        return -EINVAL;
      }
      if !permitted {
        return -EPERM;
      }
      DoShmRmid(shmid);
      err := 0;
    }

    method ShmctlSet(shmid: int, mode: bv16, permitted: bool) returns (err: int)
      modifies this
      ensures err == if shmid !in old(segs) then -EINVAL else if !permitted then -EPERM else 0
      ensures View() == if err == 0 then SetMode(old(View()), shmid, mode) else old(View())
      ensures old(Sound(View())) ==> Sound(View())
      ensures shmid in segs ==> Marked(segs[shmid]) == Marked(old(segs)[shmid])
    {
      ModeKeeps(View(), shmid, mode);
      if shmid !in segs {
        return -EINVAL;
      }
      if !permitted {
        return -EPERM;
      }
      segs := segs[shmid := segs[shmid].(mode := PermissionMode(segs[shmid].mode, mode))];
      err := 0;
    }

    /** `lockErr` is what shmem_lock answers; SHM_UNLOCK ignores it. */
    method ShmctlLock(shmid: int, lock: bool, permitted: bool, lockErr: int) returns (err: int)
      requires lockErr <= 0
      modifies this
      ensures err == if shmid !in old(segs) then -EINVAL else if !permitted then -EPERM else if lock then lockErr else 0
      ensures View() == if err == 0 then SetLocked(old(View()), shmid, lock) else old(View())
      ensures old(Sound(View())) ==> Sound(View())
      ensures shmid in segs ==> Marked(segs[shmid]) == Marked(old(segs)[shmid])
    {
      LockKeeps(View(), shmid, lock);
      if shmid !in segs {
        return -EINVAL;
      }
      if !permitted {
        return -EPERM;
      }
      err := 0;
      if lock {
        err := lockErr;
        if err == 0 {
          segs := segs[shmid := segs[shmid].(mode := LockedMode(segs[shmid].mode, true))];
        }
      } else {
        segs := segs[shmid := segs[shmid].(mode := LockedMode(segs[shmid].mode, false))];
      }
    }
  }
}
