/** The multicast list of a packet socket: counted memberships, and the references they hold on devices. */
module McList {

  const ENODEV: int := 19
  const EINVAL: int := 22
  const EADDRNOTAVAIL: int := 99
  const ENOBUFS: int := 105

  const PACKET_MR_MULTICAST: int := 0
  const PACKET_MR_PROMISC: int := 1
  const PACKET_MR_ALLMULTI: int := 2

  /** What two memberships are compared by; the address has exactly the given length. */
  datatype Key = Key(ifindex: int, kind: int, addr: seq<char>)

  datatype Entry = Entry(key: Key, count: nat)

  /** What a membership asks of its device: an address filter, or one of two modes. */
  datatype Ref = Ref(ifindex: int, kind: int, addr: seq<char>)

  predicate Known(k: Key) {
    k.kind == PACKET_MR_MULTICAST || k.kind == PACKET_MR_PROMISC || k.kind == PACKET_MR_ALLMULTI
  }

  function RefOf(k: Key): Ref {
    Ref(k.ifindex, k.kind, if k.kind == PACKET_MR_MULTICAST then k.addr else [])
  }

  function Count(refs: map<Ref, int>, r: Ref): int {
    if r in refs then refs[r] else 0
  }

  /** packet_dev_mc: kinds it does not know ask nothing of the device. */
  function Bump(refs: map<Ref, int>, k: Key, what: int): map<Ref, int> {
    if Known(k) then refs[RefOf(k) := Count(refs, RefOf(k)) + what] else refs
  }

  /** Entries of the list that ask `r` of its device. */
  function Asking(list: seq<Entry>, r: Ref): nat {
    if list == [] then 0
    else Asking(list[1..], r) + if Known(list[0].key) && RefOf(list[0].key) == r then 1 else 0
  }

  function Find(list: seq<Entry>, k: Key): (f: nat)
    ensures f <= |list| && (f < |list| ==> list[f].key == k)
    ensures forall i :: 0 <= i < f ==> list[i].key != k
  {
    if list == [] || list[0].key == k then 0 else 1 + Find(list[1..], k)
  }

  // ---------------------------------------------------------------- the list as a multiset of memberships

  ghost predicate KeysUnique(list: seq<Entry>) {
    forall i, j :: 0 <= i < j < |list| ==> list[i].key != list[j].key
  }

  /** Memberships the list records for a key. */
  function Recorded(list: seq<Entry>, k: Key): nat {
    if list == [] then 0
    else Recorded(list[1..], k) + if list[0].key == k then list[0].count else 0
  }

  ghost predicate Positive(list: seq<Entry>) {
    forall i :: 0 <= i < |list| ==> list[i].count > 0
  }

  /** One entry per key, and for every key as many memberships recorded as there are. */
  ghost predicate Represents(list: seq<Entry>, members: multiset<Key>) {
    && KeysUnique(list) && Positive(list)
    && forall k :: members[k] == Recorded(list, k)
  }

  function Added(list: seq<Entry>, k: Key): seq<Entry> {
    var f := Find(list, k);
    if f < |list| then list[f := Entry(k, list[f].count + 1)] else [Entry(k, 1)] + list
  }

  function Dropped(list: seq<Entry>, k: Key): seq<Entry> {
    var f := Find(list, k);
    if f == |list| then list
    else if list[f].count == 1 then list[..f] + list[f + 1..]
    else list[f := Entry(k, if list[f].count == 0 then 0 else list[f].count - 1)]
  }

  lemma {:induction false} RecordedSplit(a: seq<Entry>, b: seq<Entry>, k: Key)
    ensures Recorded(a + b, k) == Recorded(a, k) + Recorded(b, k)
  {
    if a == [] {
      assert a + b == b;
    } else {
      RecordedSplit(a[1..], b, k);
      assert (a + b)[1..] == a[1..] + b;
    }
  }

  lemma {:induction false} RecordedNone(list: seq<Entry>, k: Key)
    requires forall i :: 0 <= i < |list| ==> list[i].key != k
    ensures Recorded(list, k) == 0
  {
    if list != [] {
      RecordedNone(list[1..], k);
    }
  }

  /** Replacing or removing one entry. */
  lemma RecordedAt(list: seq<Entry>, f: nat, e: Entry, k: Key)
    requires f < |list|
    ensures Recorded(list[f := e], k) == Recorded(list, k) - Recorded([list[f]], k) + Recorded([e], k)
    ensures Recorded(list[..f] + list[f + 1..], k) == Recorded(list, k) - Recorded([list[f]], k)
  {
    RecordedSplit(list[..f], [list[f]] + list[f + 1..], k);
    RecordedSplit([list[f]], list[f + 1..], k);
    assert list == list[..f] + ([list[f]] + list[f + 1..]);
    RecordedSplit(list[..f], [e] + list[f + 1..], k);
    RecordedSplit([e], list[f + 1..], k);
    assert list[f := e] == list[..f] + ([e] + list[f + 1..]);
    RecordedSplit(list[..f], list[f + 1..], k);
  }

  /** With unique keys, what is recorded for a key is the count of its entry, and 0 without one. */
  lemma RecordedIsCount(list: seq<Entry>, k: Key)
    requires KeysUnique(list)
    ensures Recorded(list, k) == if Find(list, k) < |list| then list[Find(list, k)].count else 0
  {
    var f := Find(list, k);
    if f < |list| {
      RecordedAt(list, f, list[f], k);
      var rest := list[..f] + list[f + 1..];
      forall i | 0 <= i < |rest|
        ensures rest[i].key != k
      {
        assert rest[i] == list[if i < f then i else i + 1];
      }
      RecordedNone(rest, k);
    } else {
      RecordedNone(list, k);
    }
  }

  lemma AddedRepresents(list: seq<Entry>, members: multiset<Key>, k: Key)
    requires Represents(list, members)
    ensures Represents(Added(list, k), members + multiset{k})
  {
    var f := Find(list, k);
    forall x
      ensures Recorded(Added(list, k), x) == Recorded(list, x) + if x == k then 1 else 0
    {
      if f < |list| {
        RecordedAt(list, f, Entry(k, list[f].count + 1), x);
      } else {
        RecordedSplit([Entry(k, 1)], list, x);
      }
    }
  }

  lemma RemovedUnique(list: seq<Entry>, f: nat)
    requires KeysUnique(list) && Positive(list) && f < |list|
    ensures KeysUnique(list[..f] + list[f + 1..]) && Positive(list[..f] + list[f + 1..])
  {
    var rest := list[..f] + list[f + 1..];
    forall i | 0 <= i < |rest|
      ensures rest[i] == list[if i < f then i else i + 1]
    {
    }
  }

  lemma DroppedRepresents(list: seq<Entry>, members: multiset<Key>, k: Key)
    requires Represents(list, members)
    ensures Find(list, k) < |list| <==> k in members
    ensures Represents(Dropped(list, k), members - multiset{k})
  {
    var f := Find(list, k);
    RecordedIsCount(list, k);
    if f < |list| {
      if list[f].count == 1 {
        RemovedUnique(list, f);
      }
      forall x
        ensures (members - multiset{k})[x] == Recorded(Dropped(list, k), x)
      {
        DroppedRecorded(list, k, x);
      }
    } else {
      assert members - multiset{k} == members;
    }
  }

  lemma DroppedRecorded(list: seq<Entry>, k: Key, x: Key)
    requires Positive(list) && Find(list, k) < |list|
    ensures Recorded(Dropped(list, k), x) == Recorded(list, x) - if x == k then 1 else 0
  {
    var f := Find(list, k);
    RecordedAt(list, f, Entry(k, list[f].count - 1), x);
  }

  // ---------------------------------------------------------------- references on devices

  lemma {:induction false} AskingSplit(a: seq<Entry>, b: seq<Entry>, r: Ref)
    ensures Asking(a + b, r) == Asking(a, r) + Asking(b, r)
  {
    if a == [] {
      assert a + b == b;
    } else {
      AskingSplit(a[1..], b, r);
      assert (a + b)[1..] == a[1..] + b;
    }
  }

  /** Changing a count asks nothing more or less of the device; removing an entry asks one less. */
  lemma AskingAt(list: seq<Entry>, f: nat, e: Entry, r: Ref)
    requires f < |list| && e.key == list[f].key
    ensures Asking(list[f := e], r) == Asking(list, r)
    ensures Asking(list[..f] + list[f + 1..], r) == Asking(list, r) - Asking([list[f]], r)
  {
    AskingSplit(list[..f], [list[f]] + list[f + 1..], r);
    AskingSplit([list[f]], list[f + 1..], r);
    assert list == list[..f] + ([list[f]] + list[f + 1..]);
    AskingSplit(list[..f], [e] + list[f + 1..], r);
    AskingSplit([e], list[f + 1..], r);
    assert list[f := e] == list[..f] + ([e] + list[f + 1..]);
    AskingSplit(list[..f], list[f + 1..], r);
    assert Asking([e], r) == Asking([list[f]], r);
  }

  lemma BumpCounts(refs: map<Ref, int>, k: Key, what: int, r: Ref)
    ensures Count(Bump(refs, k, what), r) == Count(refs, r) + what * Asking([Entry(k, 1)], r)
  {
    assert Asking([Entry(k, 1)], r) == if Known(k) && RefOf(k) == r then 1 else 0;
  }

  /** What a membership means for its device: its address for a multicast one, a mode for kinds 1 and 2, and
      nothing for any other. */
  ghost predicate Wants(k: Key, r: Ref) {
    || (k.kind == 0 && r == Ref(k.ifindex, 0, k.addr))
    || (k.kind == 1 && r == Ref(k.ifindex, 1, []))
    || (k.kind == 2 && r == Ref(k.ifindex, 2, []))
  }

  lemma {:induction false} EntryAsks(list: seq<Entry>, i: nat, r: Ref)
    requires i < |list| && Wants(list[i].key, r)
    ensures Asking(list, r) > 0
  {
    if i > 0 {
      EntryAsks(list[1..], i - 1, r);
    }
  }

  /** A call of packet_dev_mc changes the one reference the membership means by `what`, and no other. */
  lemma DeviceCall(refs: map<Ref, int>, k: Key, what: int, r: Ref)
    ensures Count(Bump(refs, k, what), r) == Count(refs, r) + if Wants(k, r) then what else 0
  {
  }

  // ---------------------------------------------------------------- the socket

  class McSocket {
    var mclist: seq<Entry>
    /** Registered devices with the length of their addresses, and the references taken on them. */
    var devs: map<int, nat>
    var refs: map<Ref, int>

    /** `memory` says whether the new entry can be allocated; it is freed again if the key exists. */
    method McAdd(k: Key, memory: bool) returns (err: int)
      modifies this`mclist, this`refs
      ensures err == if k.ifindex !in devs then -ENODEV else if |k.addr| > devs[k.ifindex] then -EINVAL
                     else if !memory then -ENOBUFS else 0
      ensures mclist == if err == 0 then Added(old(mclist), k) else old(mclist)
      ensures refs == if err == 0 && Find(old(mclist), k) == |old(mclist)| then Bump(old(refs), k, 1) else old(refs)
    {
      if k.ifindex !in devs {
        return -ENODEV;
      }
      if |k.addr| > devs[k.ifindex] {
        return -EINVAL;
      }
      if !memory {
        return -ENOBUFS;
      }
      err := 0;
      var i := 0;
      while i < |mclist|
        invariant 0 <= i <= |mclist| && mclist == old(mclist) && refs == old(refs)
        invariant forall j :: 0 <= j < i ==> mclist[j].key != k
      {
        if mclist[i].key == k {
          mclist := mclist[i := Entry(k, mclist[i].count + 1)];
          return;
        }
        i := i + 1;
      }
      mclist := [Entry(k, 1)] + mclist;
      refs := Bump(refs, k, 1);
    }

    method McDrop(k: Key) returns (err: int)
      requires forall i :: 0 <= i < |mclist| ==> mclist[i].count > 0
      modifies this`mclist, this`refs
      ensures err == if Find(old(mclist), k) < |old(mclist)| then 0 else -EADDRNOTAVAIL
      ensures mclist == Dropped(old(mclist), k)
      ensures refs == if err == 0 && old(mclist)[Find(old(mclist), k)].count == 1 && k.ifindex in devs
                      then Bump(old(refs), k, -1) else old(refs)
    {
      var i := 0;
      while i < |mclist|
        invariant 0 <= i <= |mclist| && mclist == old(mclist) && refs == old(refs)
        invariant forall j :: 0 <= j < i ==> mclist[j].key != k
      {
        if mclist[i].key == k {
          var left := mclist[i].count - 1;
          if left == 0 {
            mclist := mclist[..i] + mclist[i + 1..];
            if k.ifindex in devs {
              refs := Bump(refs, k, -1);
            }
          } else {
            mclist := mclist[i := Entry(k, left)];
          }
          return 0;
        }
        i := i + 1;
      }
      err := -EADDRNOTAVAIL;
    }

    /** The list is emptied; each entry gives its one reference back if its device is still there. */
    method FlushMclist()
      modifies this`mclist, this`refs
      ensures mclist == []
      ensures forall r :: Count(refs, r) == Count(old(refs), r) - (if r.ifindex in devs then Asking(old(mclist), r) else 0)
    {
      while mclist != []
        invariant forall r :: Count(refs, r) - (if r.ifindex in devs then Asking(mclist, r) else 0) ==
                              Count(old(refs), r) - (if r.ifindex in devs then Asking(old(mclist), r) else 0)
        decreases |mclist|
      {
        var ml := mclist[0];
        ghost var before, was := refs, mclist;
        mclist := mclist[1..];
        if ml.key.ifindex in devs {
          refs := Bump(refs, ml.key, -1);
        }
        forall r
          ensures Count(refs, r) - (if r.ifindex in devs then Asking(mclist, r) else 0) ==
                  Count(before, r) - (if r.ifindex in devs then Asking(was, r) else 0)
        {
          BumpCounts(before, ml.key, -1, r);
        }
      }
    }
  }

  // ---------------------------------------------------------------- every run

  /** `members` are the successful adds not yet undone by a drop; `used` the interface numbers ever given out. */
  datatype State = State(list: seq<Entry>, devs: map<int, nat>, refs: map<Ref, int>, members: multiset<Key>, used: set<int>)

  datatype Event = Add(k: Key, memory: bool) | Drop(k: Key) | Flush | Register(ifindex: int, addrLen: nat) | Unregister(ifindex: int)

  ghost predicate Next(s: State, e: Event, s': State) {
    match e
    case Add(k, memory) =>
      s' == if k.ifindex !in s.devs || |k.addr| > s.devs[k.ifindex] || !memory then s
            else s.(list := Added(s.list, k), members := s.members + multiset{k},
                    refs := if Find(s.list, k) == |s.list| then Bump(s.refs, k, 1) else s.refs)
    case Drop(k) =>
      var f := Find(s.list, k);
      s' == if f == |s.list| then s
            else s.(list := Dropped(s.list, k), members := s.members - multiset{k},
                    refs := if s.list[f].count == 1 && k.ifindex in s.devs then Bump(s.refs, k, -1) else s.refs)
    case Flush =>
      && s' == s.(list := [], members := multiset{}, refs := s'.refs)
      && forall r :: Count(s'.refs, r) == Count(s.refs, r) - if r.ifindex in s.devs then Asking(s.list, r) else 0
    case Register(ifindex, addrLen) =>
      ifindex !in s.used && s' == s.(devs := s.devs[ifindex := addrLen], used := s.used + {ifindex})
    case Unregister(ifindex) =>
      // the notifier walks the list and takes back what the entries of this device had asked for
      && ifindex in s.devs
      && s' == s.(devs := s.devs - {ifindex}, refs := s'.refs)
      && forall r :: Count(s'.refs, r) == Count(s.refs, r) - if r.ifindex == ifindex then Asking(s.list, r) else 0
  }

  /** References on a registered device are the entries that ask for them; on any other there are none. */
  ghost predicate RefsExact(s: State) {
    forall r :: Count(s.refs, r) == if r.ifindex in s.devs then Asking(s.list, r) else 0
  }

  ghost predicate Inv(s: State) {
    && Represents(s.list, s.members) && RefsExact(s)
    && s.devs.Keys <= s.used && forall i :: 0 <= i < |s.list| ==> s.list[i].key.ifindex in s.used
  }

  lemma {:induction false} NobodyAsks(list: seq<Entry>, r: Ref)
    requires forall i :: 0 <= i < |list| ==> list[i].key.ifindex != r.ifindex
    ensures Asking(list, r) == 0
  {
    if list != [] {
      NobodyAsks(list[1..], r);
    }
  }

  lemma AddKeeps(s: State, e: Event, s': State)
    requires Inv(s) && e.Add? && Next(s, e, s')
    ensures Inv(s')
  {
    AddedRepresents(s.list, s.members, e.k);
    var f := Find(s.list, e.k);
    if s' != s {
      forall r
        ensures Count(s'.refs, r) == if r.ifindex in s'.devs then Asking(s'.list, r) else 0
      {
        if f < |s.list| {
          AskingAt(s.list, f, Entry(e.k, s.list[f].count + 1), r);
        } else {
          BumpCounts(s.refs, e.k, 1, r);
          AskingSplit([Entry(e.k, 1)], s.list, r);
        }
      }
    }
  }

  lemma DropKeeps(s: State, e: Event, s': State)
    requires Inv(s) && e.Drop? && Next(s, e, s')
    ensures Inv(s')
  {
    DroppedRepresents(s.list, s.members, e.k);
    var f := Find(s.list, e.k);
    if f < |s.list| {
      forall r
        ensures Count(s'.refs, r) == if r.ifindex in s'.devs then Asking(s'.list, r) else 0
      {
        AskingAt(s.list, f, Entry(e.k, s.list[f].count - 1), r);
        BumpCounts(s.refs, e.k, -1, r);
        assert Asking([s.list[f]], r) == Asking([Entry(e.k, 1)], r);
      }
    }
  }

  lemma StepKeepsInv(s: State, e: Event, s': State)
    requires Inv(s) && Next(s, e, s')
    ensures Inv(s')
  {
    match e
    case Add(_, _) => AddKeeps(s, e, s');
    case Drop(_) => DropKeeps(s, e, s');
    case Flush =>
    case Unregister(_) =>
    case Register(ifindex, _) =>
      forall r
        ensures Count(s'.refs, r) == if r.ifindex in s'.devs then Asking(s'.list, r) else 0
      {
        if r.ifindex == ifindex {
          NobodyAsks(s.list, r);
        }
      }
  }

  ghost predicate Run(ss: seq<State>, es: seq<Event>) {
    && |ss| == |es| + 1 && ss[0] == State([], map[], map[], multiset{}, {})
    && forall i :: 0 <= i < |es| ==> Next(ss[i], es[i], ss[i + 1])
  }

  /** In every run: one entry per key, its count the adds minus drops, and exact references. */
  lemma {:induction false} EveryRun(ss: seq<State>, es: seq<Event>, i: nat)
    requires Run(ss, es) && i < |ss|
    ensures Inv(ss[i])
    decreases i
  {
    if i > 0 {
      EveryRun(ss, es, i - 1);
      StepKeepsInv(ss[i - 1], es[i - 1], ss[i]);
    }
  }

  /** After a flush no device is referenced, whatever came and went before. */
  lemma FlushReleasesAll(ss: seq<State>, es: seq<Event>, i: nat, r: Ref)
    requires Run(ss, es) && 0 < i < |ss| && es[i - 1].Flush?
    ensures Count(ss[i].refs, r) == 0 && ss[i].list == []
  {
    EveryRun(ss, es, i);
    assert Next(ss[i - 1], es[i - 1], ss[i]);
  }

  /** In every run the device of an entry, if it is registered, is asked for what the membership means. */
  lemma EntryIsServed(ss: seq<State>, es: seq<Event>, i: nat, j: nat, r: Ref)
    requires Run(ss, es) && i < |ss| && j < |ss[i].list| && Wants(ss[i].list[j].key, r) && r.ifindex in ss[i].devs
    ensures Count(ss[i].refs, r) > 0
  {
    EveryRun(ss, es, i);
    EntryAsks(ss[i].list, j, r);
  }
}
