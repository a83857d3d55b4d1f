/** The scull device: the C operations, in place, over the quantum-set store. */
module ScullDevice {
  import opened Basics
  import opened Geometry
  import opened ScullStore

  const ENOMEM: int := 12
  const EFAULT: int := 14
  const EINVAL: int := 22

  ghost predicate WroteAt(st: Store, st': Store, pos: nat, data: seq<char>, x: nat)
    requires Valid(st) && Valid(st')
  {
    if pos <= x < pos + |data| then At(st', x) == Some(data[x - pos])
    else if At(st, x).Some? || !SameQuantumOf(st, x, pos) then At(st', x) == At(st, x)
    else true
  }

  /** The two positions fall into the same quantum of the same item. */
  predicate SameQuantumOf(st: Store, x: nat, pos: nat)
    requires st.quantum > 0 && st.qset > 0
  {
    x / st.quantum / st.qset == pos / st.quantum / st.qset && x / st.quantum % st.qset == pos / st.quantum % st.qset
  }

  /** `data` has been written at `pos`: those bytes hold it, every byte stored before holds what it held,
      and outside the one quantum concerned nothing has changed at all. */
  ghost predicate Wrote(st: Store, st': Store, pos: nat, data: seq<char>)
    requires Valid(st) && Valid(st')
  {
    && st'.quantum == st.quantum && st'.qset == st.qset
    && forall x: nat :: WroteAt(st, st', pos, data, x)
  }

  /** Allocations a write to quantum `j` of item `i` needs: list items, a pointer array, a quantum. */
  function Needed(st: Store, i: int, j: int): nat {
    if i >= |st.items| then i + 1 - |st.items| + 2
    else if i < 0 || st.items[i].arr == 0 then 2
    else if Slot(st, i, j) == 0 then 1
    else 0
  }

  /** What trim has not freed when it stands at quantum `j` of item `i`. */
  predicate Left(b: Block, i: int, j: int) {
    b.i > i || (b.i == i && !(b.Quantum? && b.j < j))
  }

  class Scull {
    var data: seq<Item>
    var quantum: nat
    var qset: nat
    var size: nat
    var heap: map<nat, Block>
    var next: nat
    /** How many more allocations will succeed. */
    var memory: nat

    function View(): Store
      reads this
    {
      Store(data, quantum, qset, size, heap, next)
    }

    constructor (quantum: nat, qset: nat)
      requires quantum > 0 && qset > 0
      ensures Valid(View()) && View() == Store([], quantum, qset, 0, map[], 1)
    {
      this.data, this.quantum, this.qset, this.size, this.heap, this.next := [], quantum, qset, 0, map[], 1;
    }

    method Kfree(p: nat)
      requires p == 0 || p in heap
      modifies this`heap
      ensures heap == old(heap) - {p}
    {
      heap := heap - {p};
    }

    /** Every block is freed exactly once: Kfree is only ever given live blocks, and none is left. */
    method Trim(newQuantum: nat, newQset: nat)
      requires Valid(View()) && newQuantum > 0 && newQset > 0
      modifies this
      ensures Valid(View()) && heap == map[] && data == [] && size == 0 && quantum == newQuantum && qset == newQset
    {
      ghost var st := View();
      forall p ensures p in heap ==> heap[p].i >= 0 { assert InUse(st, p); }
      var i := 0;
      while i < |data|
        invariant 0 <= i <= |data| && data == st.items && qset == st.qset && next == st.next
        invariant forall p :: p in heap <==> p in st.heap && st.heap[p].i >= i
      {
        assert ItemOk(st, i);
        if data[i].arr != 0 {
          FreeQuanta(i, st);
          Kfree(data[i].arr);
        }
        forall p
          ensures p in heap <==> p in st.heap && (st.heap[p].i > i || st.heap[p] == Node(i))
        {
          assert InUse(st, p);
        }
        Kfree(data[i].node);
        forall p
          ensures p in heap <==> p in st.heap && st.heap[p].i >= i + 1
        {
          assert InUse(st, p);
        }
        i := i + 1;
      }
      forall p
        ensures p !in heap
      {
        assert InUse(st, p);
      }
      size := 0;
      quantum := newQuantum;
      qset := newQset;
      data := [];
    }

    /** The inner loop of trim. */
    method FreeQuanta(i: nat, ghost st: Store)
      requires Valid(st) && data == st.items && qset == st.qset && i < |data| && data[i].arr != 0
      requires forall p :: p in heap <==> p in st.heap && st.heap[p].i >= i
      modifies this`heap
      ensures forall p :: p in heap <==> p in st.heap && Left(st.heap[p], i, qset)
    {
      assert ItemOk(st, i);
      forall p ensures p in heap && st.heap[p].Quantum? ==> st.heap[p].j >= 0 { assert InUse(st, p); }
      var j := 0;
      while j < qset
        invariant 0 <= j <= qset
        invariant forall p :: p in heap <==> p in st.heap && Left(st.heap[p], i, j)
      {
        assert QuantumOk(st, i, j);
        Kfree(data[i].ptrs[j]);
        forall p
          ensures p in heap <==> p in st.heap && Left(st.heap[p], i, j + 1)
        {
          assert InUse(st, p);
        }
        j := j + 1;
      }
    }

    /** scull_follow: walks to item `n`, appending empty items; fails exactly when memory runs out. */
    method Follow(n: nat) returns (found: bool)
      requires Valid(View())
      modifies this`data, this`heap, this`next, this`memory
      ensures Valid(View()) && SameBytes(old(View()), View()) && old(data) <= data
      ensures found <==> n < |data|
      ensures found <==> old(memory) >= (if n < |old(data)| then 0 else n + 1 - |old(data)|)
      ensures !found ==> memory == 0
      ensures found ==> |data| == (if n < |old(data)| then |old(data)| else n + 1)
      ensures found ==> memory == old(memory) - (|data| - |old(data)|)
      ensures |heap| + memory == old(|heap| + memory)
      ensures forall k :: |old(data)| <= k < |data| ==> data[k].arr == 0 && data[k].ptrs == []
    {
      if data == [] {
        if memory == 0 {
          return false;
        }
        Append();
      }
      var at := 0;
      while at < n
        invariant 0 <= at <= n && at < |data|
        invariant Valid(View()) && SameBytes(old(View()), View()) && old(data) <= data
        invariant |data| == |old(data)| || |data| == at + 1
        invariant memory == old(memory) - (|data| - |old(data)|) && |heap| + memory == old(|heap| + memory)
        invariant forall k :: |old(data)| <= k < |data| ==> data[k].arr == 0 && data[k].ptrs == []
      {
        if at + 1 == |data| {
          if memory == 0 {
            return false;
          }
          Append();
        }
        at := at + 1;
      }
      found := true;
    }

    /** A zeroed list item at the end of the list. */
    method Append()
      requires Valid(View()) && memory > 0
      modifies this`data, this`heap, this`next, this`memory
      ensures Valid(View()) && SameBytes(old(View()), View()) && memory == old(memory) - 1 && |heap| == |old(heap)| + 1
      ensures data == old(data) + [Item(old(next), 0, [])]
    {
      AddNodeKeeps(View());
      OneMoreBlock(View(), Node(|data|));
      heap := heap[next := Node(|data|)];
      data := data + [Item(next, 0, [])];
      next := next + 1;
      memory := memory - 1;
    }

    /** `fault` says that copy_to_user would fail on any byte. */
    method Read(pos: nat, count: nat, fault: bool) returns (ret: int, buf: seq<char>, pos': nat)
      requires Valid(View())
      modifies this`data, this`heap, this`next, this`memory
      ensures Valid(View()) && SameBytes(old(View()), View()) && memory <= old(memory) && |heap| + memory == old(|heap| + memory)
      ensures ret == if pos >= size || At(View(), pos).None? || count == 0 then 0
                     else if fault then -EFAULT
                     else Min(Min(count, size - pos), quantum - pos % quantum)
      ensures |buf| == (if ret < 0 then 0 else ret) && pos' == pos + |buf|
      ensures forall k :: 0 <= k < |buf| ==> At(View(), pos + k) == Some(buf[k])
    {
      ret, buf, pos' := 0, [], pos;
      var itemsize := quantum * qset;
      if pos >= size {
        return;
      }
      var n := if pos + count > size then size - pos else count;
      SplitPosition(pos, quantum, qset);
      var item, rest := pos / itemsize, pos % itemsize;
      var s_pos, q_pos := rest / quantum, rest % quantum;
      ret, buf := Fetch(item, s_pos, q_pos, n, fault);
      pos' := pos + |buf|;
      forall k | 0 <= k < |buf|
        ensures At(View(), pos + k) == Some(buf[k])
      {
        SameQuantum(pos, k, quantum);
      }
    }

    /** The part of scull_read between finding the place and moving the position. */
    method Fetch(item: nat, s_pos: nat, q_pos: nat, count: nat, fault: bool) returns (ret: int, buf: seq<char>)
      requires Valid(View()) && s_pos < qset && q_pos < quantum
      modifies this`data, this`heap, this`next, this`memory
      ensures Valid(View()) && SameBytes(old(View()), View()) && memory <= old(memory) && |heap| + memory == old(|heap| + memory)
      ensures ret == if Byte(View(), item, s_pos, q_pos).None? || count == 0 then 0 else if fault then -EFAULT else Min(count, quantum - q_pos)
      ensures |buf| == if ret < 0 then 0 else ret
      ensures forall k :: 0 <= k < |buf| ==> Byte(View(), item, s_pos, q_pos + k) == Some(buf[k])
    {
      ret, buf := 0, [];
      var found := Follow(item);
      assert ItemOk(View(), item) && QuantumOk(View(), item, s_pos);
      if !found || data[item].arr == 0 || data[item].ptrs[s_pos] == 0 {
        return;
      }
      var n := count;
      if n > quantum - q_pos {
        n := quantum - q_pos;
      }
      if fault && n > 0 {
        return -EFAULT, [];
      }
      buf := heap[data[item].ptrs[s_pos]].bytes[q_pos..q_pos + n];
      ret := n;
    }

    /** `junk` is what a new quantum contains; `copied` bytes get across before copy_from_user gives up. */
    method Write(buf: seq<char>, pos: nat, junk: seq<char>, copied: nat) returns (ret: int, pos': nat)
      requires Valid(View()) && |junk| == quantum
      modifies this
      ensures Valid(View())
      ensures ret == if old(memory) < Needed(old(View()), pos / quantum / qset, pos / quantum % qset) then -ENOMEM
                     else if copied < Min(|buf|, quantum - pos % quantum) then -EFAULT
                     else Min(|buf|, quantum - pos % quantum)
      ensures ret >= 0 ==> pos' == pos + ret && size == (if old(size) < pos' then pos' else old(size))
      ensures ret < 0 ==> pos' == pos && size == old(size)
      ensures ret == -ENOMEM ==> memory == 0
      ensures memory <= old(memory) && |heap| + memory == old(|heap| + memory) && (old(memory) >= pos / quantum / qset + 3 ==> ret != -ENOMEM)
      ensures Wrote(old(View()), View(), pos, if ret == -ENOMEM then [] else Landed(buf[..Min(|buf|, quantum - pos % quantum)], copied))
    {
      pos' := pos;
      var itemsize := quantum * qset;
      SplitPosition(pos, quantum, qset);
      var item, rest := pos / itemsize, pos % itemsize;
      var s_pos, q_pos := rest / quantum, rest % quantum;
      var n := |buf|;
      if n > quantum - q_pos {
        n := quantum - q_pos;
      }
      ghost var st := View();
      var bytes := Landed(buf[..n], copied);
      var done := PutBytes(item, s_pos, q_pos, junk, bytes);
      if !done {
        WroteNothing(st, View(), pos);
        return -ENOMEM, pos;
      }
      WroteThere(st, View(), pos, bytes);
      if copied < n {
        return -EFAULT, pos;
      }
      pos' := pos + n;
      ret := n;
      if size < pos' {
        ghost var st' := View();
        size := pos';
        WroteAndResized(st, st', View(), pos, bytes);
      }
    }

    /** The part of scull_write between finding the place and updating the position. */
    method PutBytes(item: nat, s_pos: nat, q_pos: nat, junk: seq<char>, bytes: seq<char>) returns (done: bool)
      requires Valid(View()) && s_pos < qset && q_pos + |bytes| <= quantum && |junk| == quantum
      modifies this`data, this`heap, this`next, this`memory
      ensures Valid(View())
      ensures done <==> old(memory) >= Needed(old(View()), item, s_pos)
      ensures !done ==> memory == 0
      ensures memory <= old(memory) && |heap| + memory == old(|heap| + memory)
      ensures done ==> WrotePlace(old(View()), View(), item, s_pos, q_pos, bytes)
      ensures !done ==> SameBytes(old(View()), View())
    {
      var found := Follow(item);
      if !found {
        return false;
      }
      ghost var st := View();
      done := MakeQuantum(item, s_pos, junk);
      if done {
        ghost var st1 := View();
        PokeWrites(st1, item, s_pos, q_pos, bytes);
        var p := data[item].ptrs[s_pos];
        SameBlocks(heap, p, heap[p].(bytes := Splice(heap[p].bytes, q_pos, bytes)));
        heap := heap[p := heap[p].(bytes := Splice(heap[p].bytes, q_pos, bytes))];
        assert View() == Poke(st1, p, q_pos, bytes);
      }
    }

    /** The two conditional allocations of scull_write. */
    method MakeQuantum(item: nat, s_pos: nat, junk: seq<char>) returns (ready: bool)
      requires Valid(View()) && item < |data| && s_pos < qset && |junk| == quantum
      modifies this`data, this`heap, this`next, this`memory
      ensures Valid(View()) && Preserves(old(View()), View())
      ensures ready <==> old(memory) >= Needed(old(View()), item, s_pos)
      ensures !ready ==> memory == 0
      ensures memory <= old(memory) && |heap| + memory == old(|heap| + memory)
      ensures ready ==> Slot(View(), item, s_pos) != 0
      ensures forall k, l, q :: !(k == item && l == s_pos) ==>
        Byte(View(), k, l, q) == Byte(old(View()), k, l, q)
      ensures !ready ==> SameBytes(old(View()), View())
    {
      assert ItemOk(View(), item);
      ready := MakeArray(item);
      assert ItemOk(View(), item);
      if !ready {
        return;
      }
      ghost var st1 := View();
      if data[item].ptrs[s_pos] == 0 {
        if memory == 0 {
          return false;
        }
        AddQuantumKeeps(st1, item, s_pos, junk);
        OneMoreBlock(st1, Quantum(item, s_pos, junk));
        heap := heap[next := Quantum(item, s_pos, junk)];
        data := data[item := data[item].(ptrs := data[item].ptrs[s_pos := next])];
        next := next + 1;
        memory := memory - 1;
        assert View() == AddQuantum(st1, item, s_pos, junk);
      }
    }

    /** The pointer array of an item, cleared. */
    method MakeArray(item: nat) returns (ready: bool)
      requires Valid(View()) && item < |data|
      modifies this`data, this`heap, this`next, this`memory
      ensures Valid(View()) && SameBytes(old(View()), View()) && |data| == |old(data)| && |heap| + memory == old(|heap| + memory)
      ensures ready <==> old(data)[item].arr != 0 || old(memory) > 0
      ensures ready ==> data[item].arr != 0 && memory == old(memory) - (if old(data)[item].arr == 0 then 1 else 0)
      ensures forall j :: Slot(View(), item, j) == Slot(old(View()), item, j)
      ensures !ready ==> memory == 0
    {
      ghost var st := View();
      assert ItemOk(st, item);
      if data[item].arr == 0 {
        if memory == 0 {
          return false;
        }
        AddArrayKeeps(st, item);
        OneMoreBlock(st, Array(item));
        assert InUse(st, st.next);
        heap := heap[next := Array(item)];
        data := data[item := Item(data[item].node, next, seq(qset, _ => 0))];
        next := next + 1;
        memory := memory - 1;
        assert View() == AddArray(st, item);
      }
      ready := true;
    }
  }

  /** An allocation is one more live block; storing into a block is none. */
  lemma OneMoreBlock(st: Store, b: Block)
    requires Valid(st)
    ensures |st.heap[st.next := b]| == |st.heap| + 1
  {
    assert InUse(st, st.next);
    assert st.heap[st.next := b].Keys == st.heap.Keys + {st.next};
  }

  lemma SameBlocks(heap: map<nat, Block>, p: nat, b: Block)
    requires p in heap
    ensures |heap[p := b]| == |heap|
  {
    assert heap[p := b].Keys == heap.Keys;
  }

  // ---------------------------------------------------------------- from quanta to positions

  lemma SameAt(st: Store, st': Store, x: nat)
    requires Valid(st) && Valid(st') && SameBytes(st, st')
    ensures At(st', x) == At(st, x)
  {
  }

  lemma WroteNothing(st: Store, st': Store, pos: nat)
    requires Valid(st) && Valid(st') && SameBytes(st, st')
    ensures Wrote(st, st', pos, [])
  {
    forall x: nat ensures WroteAt(st, st', pos, [], x) { SameAt(st, st', x); }
  }

  lemma Resized(st: Store, st': Store)
    requires Valid(st) && st' == st.(size := st'.size)
    ensures Valid(st') && forall i, j, q :: Byte(st', i, j, q) == Byte(st, i, j, q)
  {
    forall i ensures ItemOk(st', i) { assert ItemOk(st, i); }
    forall i, j ensures QuantumOk(st', i, j) { assert QuantumOk(st, i, j); }
    forall p ensures InUse(st', p) { assert InUse(st, p); }
  }

  lemma WroteAndResized(st: Store, st1: Store, st2: Store, pos: nat, data: seq<char>)
    requires Valid(st) && Valid(st1) && Wrote(st, st1, pos, data) && st2 == st1.(size := st2.size)
    ensures Valid(st2) && Wrote(st, st2, pos, data)
  {
    Resized(st1, st2);
    forall x: nat
      ensures WroteAt(st, st2, pos, data, x)
    {
      assert WroteAt(st, st1, pos, data, x);
      assert At(st2, x) == At(st1, x);
    }
  }

  ghost predicate WroteByte(st: Store, st': Store, i: int, j: int, q: int, data: seq<char>, k: int, l: int, x: int)
    requires Valid(st) && Valid(st')
  {
    if k == i && l == j && q <= x < q + |data| then Byte(st', k, l, x) == Some(data[x - q])
    else if Byte(st, k, l, x).Some? || k != i || l != j then Byte(st', k, l, x) == Byte(st, k, l, x)
    else true
  }

  /** Of the bytes of the store, a write changed these: the span at (i, j, q), and holes of that quantum. */
  ghost predicate WrotePlace(st: Store, st': Store, i: int, j: int, q: int, data: seq<char>)
    requires Valid(st) && Valid(st')
  {
    && st'.quantum == st.quantum && st'.qset == st.qset
    && forall k, l, x :: WroteByte(st, st', i, j, q, data, k, l, x)
  }

  lemma PlaceAt(st: Store, st': Store, pos: nat, data: seq<char>, x: nat)
    requires Valid(st) && Valid(st') && st'.quantum == st.quantum && st'.qset == st.qset
    requires pos % st.quantum + |data| <= st.quantum
    requires WroteByte(st, st', pos / st.quantum / st.qset, pos / st.quantum % st.qset, pos % st.quantum, data,
                       x / st.quantum / st.qset, x / st.quantum % st.qset, x % st.quantum)
    ensures WroteAt(st, st', pos, data, x)
  {
    SpanInQuantum(pos, |data|, x, st.quantum, st.qset);
  }

  lemma WroteThere(st: Store, st': Store, pos: nat, data: seq<char>)
    requires Valid(st) && Valid(st') && pos % st.quantum + |data| <= st.quantum
    requires WrotePlace(st, st', pos / st.quantum / st.qset, pos / st.quantum % st.qset, pos % st.quantum, data)
    ensures Wrote(st, st', pos, data)
  {
    forall x: nat
      ensures WroteAt(st, st', pos, data, x)
    {
      assert WroteByte(st, st', pos / st.quantum / st.qset, pos / st.quantum % st.qset, pos % st.quantum, data,
                       x / st.quantum / st.qset, x / st.quantum % st.qset, x % st.quantum);
      PlaceAt(st, st', pos, data, x);
    }
  }
}
