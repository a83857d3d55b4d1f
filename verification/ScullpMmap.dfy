/** scullp: the page-fault path of a mapped device against its read path, and what mappings protect. */
module ScullpMmap {
  import opened Basics
  import opened Geometry

  const PAGE_SIZE: nat := 4096
  const ENOMEM: int := 12
  const EFAULT: int := 14
  const EBUSY: int := 16
  const ENODEV: int := 19
  const VM_FAULT_SIGBUS: int := 2

  /** A page and the place in the list that points to it. */
  datatype Page = Page(i: int, j: int, bytes: seq<char>)

  /** `items[0]` is the device structure itself; an empty item has no pointer array, a 0 is a missing page. */
  datatype Dev = Dev(items: seq<seq<nat>>, qset: nat, order: nat, size: nat, pages: map<nat, Page>, next: nat, vmas: nat)

  function Slot(d: Dev, i: int, j: int): nat {
    if 0 <= i < |d.items| && 0 <= j < |d.items[i]| then d.items[i][j] else 0
  }

  ghost predicate SlotOk(d: Dev, i: int, j: int) {
    var p := Slot(d, i, j);
    p != 0 ==> p in d.pages && d.pages[p].i == i && d.pages[p].j == j && |d.pages[p].bytes| == PAGE_SIZE
  }

  ghost predicate InUse(d: Dev, p: nat) {
    p in d.pages ==> 0 < p < d.next && Slot(d, d.pages[p].i, d.pages[p].j) == p
  }

  /** Slots and pages point to each other. */
  ghost predicate Linked(d: Dev) {
    && d.qset > 0 && |d.items| > 0 && d.next > 0
    && (forall i, j :: SlotOk(d, i, j))
    && (forall p :: InUse(d, p))
  }

  /** Every pointer array has the device's set size. */
  ghost predicate Shaped(d: Dev) {
    forall i :: 0 <= i < |d.items| ==> d.items[i] == [] || |d.items[i]| == d.qset
  }

  ghost predicate Valid(d: Dev) {
    Linked(d) && Shaped(d)
  }

  /** Page number `n` of the device, 0 for a hole or beyond the list. */
  function PageNo(d: Dev, n: nat): nat
    requires d.qset > 0
  {
    Slot(d, n / d.qset, n % d.qset)
  }

  function Quantum(order: nat): nat {
    if order == 0 then PAGE_SIZE else 2 * Quantum(order - 1)
  }

  lemma QuantumDoubles(order: nat)
    ensures Quantum(0) == 4096 && Quantum(order + 1) == Quantum(order) + Quantum(order)
  {
  }

  /** Pages and their contents are as before; the list may be longer. */
  ghost predicate SamePages(d: Dev, d': Dev) {
    && d' == d.(items := d'.items)
    && forall i, j :: Slot(d', i, j) == Slot(d, i, j)
  }

  lemma SamePagesLinked(d: Dev, d': Dev)
    requires Linked(d) && SamePages(d, d') && |d'.items| > 0
    ensures Linked(d')
  {
    forall i, j ensures SlotOk(d', i, j) { assert SlotOk(d, i, j) && Slot(d', i, j) == Slot(d, i, j); }
    forall p ensures InUse(d', p) { assert InUse(d, p); }
  }

  /** What a new page and an old one contain before the write. */
  ghost function PageBytes(d: Dev, i: int, j: int): (r: seq<char>)
    requires Valid(d)
    ensures |r| == PAGE_SIZE
  {
    var p := Slot(d, i, j);
    if p == 0 then seq(PAGE_SIZE, _ => '\0') else
      assert SlotOk(d, i, j);
      d.pages[p].bytes
  }

  /** `data` has been laid over page (i, j) at offset `q`, and every other page is as it was. */
  ghost predicate Filled(d: Dev, d': Dev, i: int, j: int, q: int, data: seq<char>)
    requires Valid(d)
  {
    var p := Slot(d', i, j);
    && (Slot(d, i, j) != 0 ==> p == Slot(d, i, j))
    && p in d'.pages && 0 <= q && q + |data| <= PAGE_SIZE && d'.pages[p].bytes == Splice(PageBytes(d, i, j), q, data)
    && forall x :: x != p ==> (x in d'.pages <==> x in d.pages) && (x in d.pages ==> d'.pages[x] == d.pages[x])
  }

  /** A write to page (i, j) needs something that cannot be allocated. */
  predicate Starved(d: Dev, i: int, j: int, arrayOk: bool, pageOk: bool) {
    || ((i < 0 || i >= |d.items| || d.items[i] == []) && !arrayOk)
    || (Slot(d, i, j) == 0 && !pageOk)
  }

  /** `buf` is what the page (i, j) holds from offset `q` on, up to `n` bytes or its end; nothing for a hole. */
  ghost predicate Fetched(d: Dev, i: int, j: int, q: int, n: nat, buf: seq<char>) {
    var p := Slot(d, i, j);
    if p == 0 then buf == []
    else
      && p in d.pages && 0 <= q < PAGE_SIZE && |d.pages[p].bytes| == PAGE_SIZE
      && |buf| == Min(n, PAGE_SIZE - q) && buf == d.pages[p].bytes[q..q + |buf|]
  }

  lemma FilledAndResized(d: Dev, d1: Dev, d2: Dev, i: int, j: int, q: int, data: seq<char>)
    requires Valid(d) && Valid(d1) && Filled(d, d1, i, j, q, data) && d2 == d1.(size := d2.size)
    ensures Valid(d2) && Filled(d, d2, i, j, q, data)
  {
    ReshapeKeepsLinked(d1, d2);
    assert Slot(d2, i, j) == Slot(d1, i, j);
  }

  class Scullp {
    var items: seq<seq<nat>>
    var qset: nat
    var order: nat
    var size: nat
    var pages: map<nat, Page>
    var next: nat
    var vmas: nat

    function View(): Dev
      reads this
    {
      Dev(items, qset, order, size, pages, next, vmas)
    }

    constructor (qset: nat)
      requires qset > 0
      ensures View() == Dev([[]], qset, 0, 0, map[], 1, 0) && Valid(View())
    {
      this.items, this.qset, this.order, this.size := [[]], qset, 0, 0;
      this.pages, this.next, this.vmas := map[], 1, 0;
    }

    /** scullp_follow; its allocations do not fail. */
    method Follow(n: nat)
      requires Valid(View())
      modifies this`items
      ensures Valid(View()) && SamePages(old(View()), View()) && n < |items|
      ensures items[n] == if n < |old(items)| then old(items)[n] else []
    {
      ghost var d := View();
      var at := 0;
      while at < n
        invariant 0 <= at <= n && at < |items|
        invariant Valid(View()) && SamePages(d, View()) && old(items) <= items
        invariant forall k :: |old(items)| <= k < |items| ==> items[k] == []
      {
        if at + 1 == |items| {
          ghost var d1 := View();
          items := items + [[]];
          assert SamePages(d1, View()) by {
            forall i, j ensures Slot(View(), i, j) == Slot(d1, i, j) { }
          }
          SamePagesLinked(d1, View());
        }
        at := at + 1;
      }
    }

    /** The fault handler: subtract the set size and walk.  A page number of 0 means no page is mapped. */
    method Nopage(offset: nat) returns (ret: int, page: nat)
      requires Valid(View())
      ensures offset >= size ==> ret == 0 && page == 0
      ensures offset < size ==> page == PageNo(View(), offset / PAGE_SIZE) && ret == if page == 0 then VM_FAULT_SIGBUS else 0
    {
      ret, page := 0, 0;
      if offset >= size {
        return;
      }
      var n := offset / PAGE_SIZE;
      ghost var all := n;
      var at := 0;
      while at < |items| && n >= qset
        invariant 0 <= at <= |items| && n >= 0
        invariant all == at * qset + n
        decreases n
      {
        Distributes(at, 1, qset);
        at := at + 1;
        n := n - qset;
      }
      WalkEnds(View(), all, at, n);
      if at < |items| && items[at] != [] {
        page := items[at][n];
      }
      if page == 0 {
        ret := VM_FAULT_SIGBUS;
      }
    }

    /** The read path: divide by the item size and follow; `buf` is what is handed to copy_to_user. */
    method Read(pos: nat, count: nat, fault: bool) returns (ret: int, buf: seq<char>)
      requires Valid(View()) && order == 0
      modifies this`items
      ensures Valid(View()) && SamePages(old(View()), View())
      ensures if pos > size then buf == []
              else var itemsize := Quantum(order) * qset;
                itemsize > 0 && Fetched(View(), pos / itemsize, pos % itemsize / Quantum(order), pos % itemsize % Quantum(order),
                                        Min(count, size - pos), buf)
      ensures ret == if fault && buf != [] then -EFAULT else |buf|
    {
      ret, buf := 0, [];
      if pos > size {
        return;
      }
      var n := if pos + count > size then size - pos else count;
      var item, s_pos, q_pos := PlaceOf(pos);
      buf := Fetch(item, s_pos, q_pos, n);
      ret := if fault && buf != [] then -EFAULT else |buf|;
    }

    /** List item, index and offset of a position. */
    method PlaceOf(pos: nat) returns (item: nat, s_pos: nat, q_pos: nat)
      requires qset > 0 && order == 0
      ensures s_pos < qset && q_pos < PAGE_SIZE
      ensures var itemsize := Quantum(order) * qset;
        itemsize > 0 && item == pos / itemsize && s_pos == pos % itemsize / Quantum(order) && q_pos == pos % itemsize % Quantum(order)
      ensures item == pos / PAGE_SIZE / qset && s_pos == pos / PAGE_SIZE % qset && q_pos == pos % PAGE_SIZE
    {
      var quantum := Quantum(order);
      var itemsize := quantum * qset;
      SplitPosition(pos, quantum, qset);
      item := pos / itemsize;
      var rest := pos % itemsize;
      s_pos, q_pos := rest / quantum, rest % quantum;
    }

    method Fetch(item: nat, s_pos: nat, q_pos: nat, n: nat) returns (buf: seq<char>)
      requires Valid(View()) && s_pos < qset && q_pos < PAGE_SIZE
      modifies this`items
      ensures Valid(View()) && SamePages(old(View()), View())
      ensures Fetched(View(), item, s_pos, q_pos, n, buf)
    {
      Follow(item);
      assert SlotOk(View(), item, s_pos);
      if items[item] == [] || items[item][s_pos] == 0 {
        return [];
      }
      var count := n;
      if count > PAGE_SIZE - q_pos {
        count := PAGE_SIZE - q_pos;
      }
      buf := pages[items[item][s_pos]].bytes[q_pos..q_pos + count];
    }

    /** A write at order 0 fills part of one page, allocating it cleared if need be; the two booleans say
        whether the pointer array and the page can be allocated, and `copied` bytes get across before
        copy_from_user gives up.  No other page changes. */
    method Write(pos: nat, buf: seq<char>, arrayOk: bool, pageOk: bool, copied: nat) returns (ret: int)
      requires Valid(View()) && order == 0
      modifies this
      ensures Valid(View()) && qset == old(qset) && order == 0 && vmas == old(vmas)
      ensures ret == if Starved(old(View()), pos / PAGE_SIZE / qset, pos / PAGE_SIZE % qset, arrayOk, pageOk) then -ENOMEM
                     else if copied < Min(|buf|, PAGE_SIZE - pos % PAGE_SIZE) then -EFAULT
                     else Min(|buf|, PAGE_SIZE - pos % PAGE_SIZE)
      ensures size == if ret >= 0 && old(size) < pos + ret then pos + ret else old(size)
      ensures ret != -ENOMEM ==> Filled(old(View()), View(), pos / PAGE_SIZE / qset, pos / PAGE_SIZE % qset,
                                        pos % PAGE_SIZE, Landed(buf[..Min(|buf|, PAGE_SIZE - pos % PAGE_SIZE)], copied))
      ensures ret == -ENOMEM ==> pages == old(pages)
      ensures arrayOk && pageOk ==> ret != -ENOMEM
      ensures ret == -ENOMEM ==> PageNo(old(View()), pos / PAGE_SIZE) == 0
      ensures ret >= 0 ==> var p := PageNo(View(), pos / PAGE_SIZE);
        && p in pages && |pages[p].bytes| == PAGE_SIZE && forall k :: 0 <= k < ret ==> pages[p].bytes[pos % PAGE_SIZE + k] == buf[k]
    {
      var item, s_pos, q_pos := PlaceOf(pos);
      var n := |buf|;
      if n > PAGE_SIZE - q_pos {
        n := PAGE_SIZE - q_pos;
      }
      ret := WriteAt(item, s_pos, q_pos, pos, buf[..n], arrayOk, pageOk, copied);
    }

    /** The rest of scullp_write, once the place and the amount are known. */
    method WriteAt(item: nat, s_pos: nat, q_pos: nat, pos: nat, data: seq<char>, arrayOk: bool, pageOk: bool, copied: nat)
      returns (ret: int)
      requires Valid(View()) && s_pos < qset && q_pos + |data| <= PAGE_SIZE
      modifies this
      ensures Valid(View()) && qset == old(qset) && order == old(order) && vmas == old(vmas)
      ensures ret == if Starved(old(View()), item, s_pos, arrayOk, pageOk) then -ENOMEM
                     else if copied < |data| then -EFAULT else |data|
      ensures size == if ret >= 0 && old(size) < pos + ret then pos + ret else old(size)
      ensures ret != -ENOMEM ==> Filled(old(View()), View(), item, s_pos, q_pos, Landed(data, copied))
      ensures ret == -ENOMEM ==> pages == old(pages)
    {
      ghost var d := View();
      var bytes := Landed(data, copied);
      var done := FillAt(item, s_pos, q_pos, bytes, arrayOk, pageOk);
      if !done {
        return -ENOMEM;
      }
      if copied < |data| {
        return -EFAULT;
      }
      ghost var d1 := View();
      if size < pos + |data| {
        size := pos + |data|;
      }
      FilledAndResized(d, d1, View(), item, s_pos, q_pos, bytes);
      ret := |data|;
    }

    method FillAt(item: nat, s_pos: nat, q_pos: nat, data: seq<char>, arrayOk: bool, pageOk: bool) returns (done: bool)
      requires Valid(View()) && s_pos < qset && q_pos + |data| <= PAGE_SIZE
      modifies this`items, this`pages, this`next
      ensures Valid(View()) && done == !Starved(old(View()), item, s_pos, arrayOk, pageOk)
      ensures done ==> Filled(old(View()), View(), item, s_pos, q_pos, data)
      ensures !done ==> pages == old(pages)
    {
      ghost var d := View();
      Follow(item);
      assert Slot(View(), item, s_pos) == Slot(d, item, s_pos);
      if items[item] == [] && !arrayOk {
        return false;
      }
      MakeArray(item);
      assert SlotOk(View(), item, s_pos) && InUse(View(), 0) && InUse(View(), next);
      assert Slot(View(), item, s_pos) == Slot(d, item, s_pos);
      if items[item][s_pos] == 0 && !pageOk {
        return false;
      }
      var bytes := if items[item][s_pos] == 0 then seq(PAGE_SIZE, _ => '\0') else pages[items[item][s_pos]].bytes;
      PutPage(item, s_pos, Splice(bytes, q_pos, data));
      done := true;
    }

    method MakeArray(item: nat)
      requires Valid(View()) && item < |items|
      modifies this`items
      ensures Valid(View()) && SamePages(old(View()), View()) && item < |items| && |items[item]| == qset
    {
      if items[item] == [] {
        ghost var d := View();
        items := items[item := seq(qset, _ => 0)];
        assert SamePages(d, View()) by {
          forall i, j ensures Slot(View(), i, j) == Slot(d, i, j) { }
        }
        SamePagesLinked(d, View());
      }
    }

    method PutPage(i: nat, j: nat, bytes: seq<char>)
      requires Valid(View()) && i < |items| && j < |items[i]| && |bytes| == PAGE_SIZE
      modifies this`items, this`pages, this`next
      ensures View() == Put(old(View()), i, j, bytes) && Valid(View())
      ensures Slot(View(), i, j) in pages && pages[Slot(View(), i, j)].bytes == bytes
    {
      PutKeepsLinked(View(), i, j, bytes);
      assert SlotOk(View(), i, j) && InUse(View(), 0);
      if items[i][j] == 0 {
        var row: seq<nat> := items[i][j := next];
        items := items[i := row];
        pages := pages[next := Page(i, j, bytes)];
        next := next + 1;
      } else {
        pages := pages[items[i][j] := Page(i, j, bytes)];
      }
    }

    /** Refused while anything is mapped; otherwise every page is freed, each while it is still allocated. */
    method Trim(newQset: nat, newOrder: nat) returns (ret: int)
      requires Valid(View()) && newQset > 0
      modifies this
      ensures Valid(View()) && vmas == old(vmas)
      ensures ret == if old(vmas) != 0 then -EBUSY else 0
      ensures View() == if ret != 0 then old(View()) else Dev([[]], newQset, newOrder, 0, map[], old(next), 0)
    {
      if vmas != 0 {
        return -EBUSY;
      }
      ghost var d := View();
      forall p ensures p in pages ==> pages[p].i >= 0 && pages[p].j >= 0 { assert InUse(d, p); }
      var i := 0;
      while i < |items|
        invariant View() == d.(pages := pages) && 0 <= i <= |items|
        invariant forall p :: p in pages <==> p in d.pages && d.pages[p].i >= i
      {
        var j := 0;
        while j < |items[i]|
          invariant View() == d.(pages := pages) && i < |items| && 0 <= j <= |items[i]|
          invariant forall p :: p in pages <==> p in d.pages && (d.pages[p].i > i || (d.pages[p].i == i && d.pages[p].j >= j))
        {
          assert SlotOk(d, i, j);
          assert items[i][j] == 0 || items[i][j] in pages;
          pages := pages - {items[i][j]};
          forall p
            ensures p in pages <==> p in d.pages && (d.pages[p].i > i || (d.pages[p].i == i && d.pages[p].j >= j + 1))
          {
            assert InUse(d, p);
          }
          j := j + 1;
        }
        forall p ensures p in d.pages && d.pages[p].i == i ==> d.pages[p].j < j { assert InUse(d, p); }
        i := i + 1;
      }
      forall p ensures p !in pages { assert InUse(d, p); }
      assert pages == map[];
      size := 0;
      qset := newQset;
      order := newOrder;
      items := [[]];
      ret := 0;
    }

    method VmaOpen()
      modifies this`vmas
      ensures vmas == old(vmas) + 1
    {
      vmas := vmas + 1;
    }

    method VmaClose()
      requires vmas > 0
      modifies this`vmas
      ensures vmas == old(vmas) - 1
    {
      vmas := vmas - 1;
    }

    method Mmap() returns (ret: int)
      modifies this`vmas
      ensures ret == if order != 0 then -ENODEV else 0
      ensures vmas == if ret == 0 then old(vmas) + 1 else old(vmas)
    {
      if order != 0 {
        return -ENODEV;
      }
      VmaOpen();
      ret := 0;
    }
  }

  /** Where the walk stops it stands at quotient and remainder, or past the end of the list. */
  lemma WalkEnds(d: Dev, all: nat, at: nat, n: nat)
    requires d.qset > 0 && all == at * d.qset + n && at <= |d.items| && (at == |d.items| || n < d.qset)
    requires forall i :: 0 <= i < |d.items| ==> d.items[i] == [] || |d.items[i]| == d.qset
    ensures PageNo(d, all) == if at < |d.items| && d.items[at] != [] then d.items[at][n] else 0
    ensures at < |d.items| ==> n < d.qset
  {
    if n < d.qset {
      DivModUnique(all, d.qset, at, n);
    } else {
      Fundamental(all, d.qset);
      if all / d.qset < at {
        AtLeastOne(at - all / d.qset, d.qset);
        Distributes(at, all / d.qset, d.qset);
      }
    }
  }

  /** Subtract-and-walk and divide-and-follow reach the same slot at order 0. */
  lemma FaultAgreesWithRead(d: Dev, offset: nat)
    requires d.qset > 0 && d.order == 0
    ensures Quantum(d.order) * d.qset > 0
    ensures PageNo(d, offset / PAGE_SIZE) ==
            Slot(d, offset / (Quantum(d.order) * d.qset), offset % (Quantum(d.order) * d.qset) / Quantum(d.order))
    ensures offset % PAGE_SIZE == offset % (Quantum(d.order) * d.qset) % Quantum(d.order)
  {
    SplitPosition(offset, PAGE_SIZE, d.qset);
  }

  /** Both paths run one after the other on an offset below the size: the byte read is the byte the faulted
      page shows at that offset, and one finds a hole exactly when the other does. */
  method FaultThenRead(dev: Scullp, offset: nat) returns (page: nat, buf: seq<char>)
    requires Valid(dev.View()) && dev.order == 0 && offset < dev.size
    modifies dev
    ensures Valid(dev.View()) && dev.pages == old(dev.pages)
    ensures page == 0 <==> buf == []
    ensures page != 0 ==> page in dev.pages && |dev.pages[page].bytes| == PAGE_SIZE
                          && buf == [dev.pages[page].bytes[offset % PAGE_SIZE]]
  {
    var ret;
    ret, page := dev.Nopage(offset);
    FaultAgreesWithRead(dev.View(), offset);
    ret, buf := dev.Read(offset, 1, false);
  }

  /** What has been written is what is read, within one page. */
  method WriteThenRead(dev: Scullp, pos: nat, data: seq<char>) returns (n: int, buf: seq<char>)
    requires Valid(dev.View()) && dev.order == 0
    modifies dev
    ensures Valid(dev.View()) && n == Min(|data|, PAGE_SIZE - pos % PAGE_SIZE) && buf == data[..n]
  {
    n := dev.Write(pos, data, true, true, |data|);
    SamePlace(dev.View(), pos);
    ghost var p := PageNo(dev.View(), pos / PAGE_SIZE);
    assert InUse(dev.View(), p);
    var ret;
    ret, buf := dev.Read(pos, n, false);
    assert p == PageNo(dev.View(), pos / PAGE_SIZE);
    assert |buf| == n && forall k :: 0 <= k < n ==> buf[k] == data[k];
  }

  lemma SamePlace(d: Dev, pos: nat)
    requires d.qset > 0 && d.order == 0
    ensures var itemsize := Quantum(d.order) * d.qset;
      && itemsize > 0 && pos / itemsize == pos / PAGE_SIZE / d.qset
      && pos % itemsize / Quantum(d.order) == pos / PAGE_SIZE % d.qset && pos % itemsize % Quantum(d.order) == pos % PAGE_SIZE
  {
    SplitPosition(pos, PAGE_SIZE, d.qset);
  }

  // ---------------------------------------------------------------- one page

  /** Stores a page at a slot, under a new number if the slot was empty. */
  function Put(d: Dev, i: int, j: int, bytes: seq<char>): Dev
    requires 0 <= i < |d.items| && 0 <= j < |d.items[i]|
  {
    var p := d.items[i][j];
    if p in d.pages then d.(pages := d.pages[p := Page(i, j, bytes)])
    else
      var row: seq<nat> := d.items[i][j := d.next];
      d.(items := d.items[i := row], pages := d.pages[d.next := Page(i, j, bytes)], next := d.next + 1)
  }

  lemma PutKeepsLinked(d: Dev, i: int, j: int, bytes: seq<char>)
    requires Linked(d) && 0 <= i < |d.items| && 0 <= j < |d.items[i]| && |bytes| == PAGE_SIZE
    ensures Linked(Put(d, i, j, bytes)) && forall p :: p in d.pages ==> p in Put(d, i, j, bytes).pages
  {
    var d' := Put(d, i, j, bytes);
    assert SlotOk(d, i, j) && InUse(d, d.next);
    forall k, l ensures SlotOk(d', k, l) { assert SlotOk(d, k, l); }
    forall p ensures InUse(d', p) { assert InUse(d, p); }
  }

  lemma ReshapeKeepsLinked(d: Dev, d': Dev)
    requires Linked(d) && d' == d.(size := d'.size, vmas := d'.vmas)
    ensures Linked(d')
  {
    forall i, j ensures SlotOk(d', i, j) { assert SlotOk(d, i, j); }
    forall p ensures InUse(d', p) { assert InUse(d, p); }
  }
}
