/** The quantum-set store behind a scull device, as values: a list of items, each with a (possibly
    missing) array of pointers to quanta, over a heap of allocated blocks. */
module ScullStore {
  import opened Basics

  /** What kmalloc handed out; each block is labelled with the place that points to it. */
  datatype Block = Node(i: int) | Array(i: int) | Quantum(i: int, j: int, bytes: seq<char>)

  /** `node` is the item's own block; `arr` its pointer array, 0 when missing; a 0 in `ptrs` is a missing quantum. */
  datatype Item = Item(node: nat, arr: nat, ptrs: seq<nat>)

  datatype Store = Store(items: seq<Item>, quantum: nat, qset: nat, size: nat, heap: map<nat, Block>, next: nat)

  /** The pointer to quantum `j` of item `i`, 0 when anything on the way is missing. */
  function Slot(st: Store, i: int, j: int): nat {
    if 0 <= i < |st.items| && 0 <= j < |st.items[i].ptrs| then st.items[i].ptrs[j] else 0
  }

  ghost predicate QuantumOk(st: Store, i: int, j: int) {
    var p := Slot(st, i, j);
    p != 0 ==> p in st.heap && st.heap[p].Quantum? && st.heap[p].i == i && st.heap[p].j == j && |st.heap[p].bytes| == st.quantum
  }

  ghost predicate ItemOk(st: Store, i: int) {
    0 <= i < |st.items| ==>
      && st.items[i].node in st.heap && st.heap[st.items[i].node] == Node(i)
      && (st.items[i].arr == 0 ==> st.items[i].ptrs == [])
      && (st.items[i].arr != 0 ==>
            st.items[i].arr in st.heap && st.heap[st.items[i].arr] == Array(i) && |st.items[i].ptrs| == st.qset)
  }

  /** The block is in use: the place it is labelled with does point to it. */
  ghost predicate InUse(st: Store, p: nat) {
    p in st.heap ==>
      && 0 < p < st.next
      && match st.heap[p]
         case Node(i) => 0 <= i < |st.items| && st.items[i].node == p
         case Array(i) => 0 <= i < |st.items| && st.items[i].arr == p
         case Quantum(i, j, _) => Slot(st, i, j) == p
  }

  /** Well-formed, without aliasing and without leaks: blocks and places correspond one to one. */
  ghost predicate Valid(st: Store) {
    && st.quantum > 0 && st.qset > 0 && st.next > 0
    && (forall i :: ItemOk(st, i))
    && (forall i, j :: QuantumOk(st, i, j))
    && (forall p :: InUse(st, p))
  }

  /** The byte at offset `q` of quantum `j` of item `i`, if that quantum exists. */
  ghost function Byte(st: Store, i: int, j: int, q: int): Option<char>
    requires Valid(st)
  {
    var p := Slot(st, i, j);
    if p == 0 || !(0 <= q < st.quantum) then None else
      assert QuantumOk(st, i, j);
      Some(st.heap[p].bytes[q])
  }

  /** The byte at a file position. */
  ghost function At(st: Store, pos: nat): Option<char>
    requires Valid(st)
  {
    Byte(st, pos / st.quantum / st.qset, pos / st.quantum % st.qset, pos % st.quantum)
  }

  /** Nothing a reader could see differs, except that holes may have been filled. */
  ghost predicate Preserves(st: Store, st': Store)
    requires Valid(st) && Valid(st')
  {
    && st'.quantum == st.quantum && st'.qset == st.qset && st'.size == st.size
    && forall i, j, q :: Byte(st, i, j, q).Some? ==> Byte(st', i, j, q) == Byte(st, i, j, q)
  }

  ghost predicate SameBytes(st: Store, st': Store)
    requires Valid(st) && Valid(st')
  {
    && st'.quantum == st.quantum && st'.qset == st.qset && st'.size == st.size
    && forall i, j, q :: Byte(st', i, j, q) == Byte(st, i, j, q)
  }

  // ---------------------------------------------------------------- the elementary updates

  function AddNode(st: Store): Store {
    st.(items := st.items + [Item(st.next, 0, [])], heap := st.heap[st.next := Node(|st.items|)], next := st.next + 1)
  }

  function AddArray(st: Store, i: nat): Store
    requires i < |st.items|
  {
    st.(items := st.items[i := Item(st.items[i].node, st.next, seq(st.qset, _ => 0))],
        heap := st.heap[st.next := Array(i)], next := st.next + 1)
  }

  /** kmalloc does not clear the new quantum: it holds `junk`. */
  function AddQuantum(st: Store, i: nat, j: nat, junk: seq<char>): Store
    requires i < |st.items| && j < |st.items[i].ptrs|
  {
    st.(items := st.items[i := st.items[i].(ptrs := st.items[i].ptrs[j := st.next])],
        heap := st.heap[st.next := Quantum(i, j, junk)], next := st.next + 1)
  }

  function Poke(st: Store, p: nat, q: nat, data: seq<char>): Store
    requires p in st.heap && st.heap[p].Quantum? && q + |data| <= |st.heap[p].bytes|
  {
    st.(heap := st.heap[p := st.heap[p].(bytes := Splice(st.heap[p].bytes, q, data))])
  }

  lemma AddNodeKeeps(st: Store)
    requires Valid(st)
    ensures Valid(AddNode(st)) && SameBytes(st, AddNode(st))
  {
    var st' := AddNode(st);
    assert InUse(st, st.next);
    forall i ensures ItemOk(st', i) { assert ItemOk(st, i); }
    forall i, j ensures QuantumOk(st', i, j) { assert QuantumOk(st, i, j); }
    forall p ensures InUse(st', p) { assert InUse(st, p); }
    forall i, j, q ensures Byte(st', i, j, q) == Byte(st, i, j, q) { assert QuantumOk(st, i, j); }
  }

  lemma AddArrayKeeps(st: Store, i: nat)
    requires Valid(st) && i < |st.items| && st.items[i].arr == 0
    ensures Valid(AddArray(st, i)) && SameBytes(st, AddArray(st, i))
  {
    var st' := AddArray(st, i);
    assert InUse(st, st.next);
    assert ItemOk(st, i);
    forall k ensures ItemOk(st', k) { assert ItemOk(st, k); }
    forall k, j ensures QuantumOk(st', k, j) { assert QuantumOk(st, k, j); }
    forall p ensures InUse(st', p) { assert InUse(st, p); }
    forall k, j, q ensures Byte(st', k, j, q) == Byte(st, k, j, q) { assert QuantumOk(st, k, j); }
  }

  lemma AddQuantumKeeps(st: Store, i: nat, j: nat, junk: seq<char>)
    requires Valid(st) && i < |st.items| && j < |st.items[i].ptrs| && Slot(st, i, j) == 0 && |junk| == st.quantum
    ensures Valid(AddQuantum(st, i, j, junk)) && Preserves(st, AddQuantum(st, i, j, junk))
    ensures forall k, l, q :: !(k == i && l == j) ==> Byte(AddQuantum(st, i, j, junk), k, l, q) == Byte(st, k, l, q)
  {
    var st' := AddQuantum(st, i, j, junk);
    assert InUse(st, st.next);
    assert ItemOk(st, i);
    forall k ensures ItemOk(st', k) { assert ItemOk(st, k); }
    forall k, l ensures QuantumOk(st', k, l) { assert QuantumOk(st, k, l); }
    forall p ensures InUse(st', p) { assert InUse(st, p); }
    forall k, l, q
      ensures !(k == i && l == j) ==> Byte(st', k, l, q) == Byte(st, k, l, q)
    {
      assert QuantumOk(st, k, l);
    }
  }

  /** Writing inside one quantum changes those bytes and no other. */
  lemma PokeWrites(st: Store, i: nat, j: nat, q: nat, data: seq<char>)
    requires Valid(st) && q + |data| <= st.quantum && Slot(st, i, j) != 0
    ensures var p := Slot(st, i, j);
      && p in st.heap && st.heap[p].Quantum? && |st.heap[p].bytes| == st.quantum
      && Valid(Poke(st, p, q, data))
      && forall k, l, x :: Byte(Poke(st, p, q, data), k, l, x) ==
           if k == i && l == j && q <= x < q + |data| then Some(data[x - q]) else Byte(st, k, l, x)
  {
    var p := Slot(st, i, j);
    assert QuantumOk(st, i, j);
    var st' := Poke(st, p, q, data);
    forall k ensures ItemOk(st', k) { assert ItemOk(st, k); }
    forall k, l ensures QuantumOk(st', k, l) { assert QuantumOk(st, k, l); }
    forall x ensures InUse(st', x) { assert InUse(st, x); }
    forall k, l, x
      ensures Byte(st', k, l, x) == if k == i && l == j && q <= x < q + |data| then Some(data[x - q]) else Byte(st, k, l, x)
    {
      assert QuantumOk(st, k, l);
    }
  }
}
