/** Doubly linked lists on the heap, linear and circular: sorted insertion and in-place reversal. */
module DoublyLinked {
  import opened SortedLists

  class NodeD {
    var next: NodeD?
    var prev: NodeD?
    var value: int

    constructor (value: int)
      ensures this.value == value && next == null && prev == null
    {
      this.value, this.next, this.prev := value, null, null;
    }
  }

  ghost predicate Shows(nodes: seq<NodeD>, vals: seq<int>)
    reads nodes
  {
    |vals| == |nodes| && forall i :: 0 <= i < |nodes| ==> nodes[i].value == vals[i]
  }

  lemma ShowsWith(nodes: seq<NodeD>, vals: seq<int>, k: nat, x: NodeD)
    requires Shows(nodes, vals) && k <= |nodes|
    ensures Shows(Spliced(nodes, k, x), vals[..k] + [x.value] + vals[k..])
  {
  }

  lemma ShowsReversed(nodes: seq<NodeD>, vals: seq<int>)
    requires Shows(nodes, vals)
    ensures Shows(Reversed(nodes), Reversed(vals))
  {
  }

  function After(nodes: seq<NodeD>, i: int): NodeD? {
    if 0 <= i + 1 < |nodes| then nodes[i + 1] else null
  }

  function Before(nodes: seq<NodeD>, i: int): NodeD? {
    if 0 < i <= |nodes| then nodes[i - 1] else null
  }

  function Around(nodes: seq<NodeD>, i: int): NodeD? {
    if 0 <= i + 1 < |nodes| then nodes[i + 1] else if nodes == [] then null else nodes[0]
  }

  function Behind(nodes: seq<NodeD>, i: int): NodeD? {
    if 0 < i <= |nodes| then nodes[i - 1] else if nodes == [] then null else nodes[|nodes| - 1]
  }

  /** Both directions of a linear list: next and prev are mutually inverse. */
  ghost predicate Linear(list: NodeD?, nodes: seq<NodeD>)
    reads nodes
  {
    && Distinct(nodes) && list == After(nodes, -1)
    && (forall i :: 0 <= i < |nodes| ==> nodes[i].next == After(nodes, i))
    && (forall i :: 0 <= i < |nodes| ==> nodes[i].prev == Before(nodes, i))
  }

  ghost predicate Circular(list: NodeD?, nodes: seq<NodeD>)
    reads nodes
  {
    && Distinct(nodes) && list == After(nodes, -1)
    && (forall i :: 0 <= i < |nodes| ==> nodes[i].next == Around(nodes, i))
    && (forall i :: 0 <= i < |nodes| ==> nodes[i].prev == Behind(nodes, i))
  }

  method SetNext(node: NodeD, to_: NodeD?, ghost nodes: seq<NodeD>, ghost at: nat)
    requires Distinct(nodes) && at < |nodes| && nodes[at] == node
    modifies node`next
    ensures node.next == to_
    ensures forall i :: 0 <= i < |nodes| && i != at ==> nodes[i].next == old(nodes[i].next)
  {
    forall i | 0 <= i < |nodes| && i != at ensures nodes[i] != nodes[at] { assert Differ(nodes, i, at); }
    node.next := to_;
  }

  method SetPrev(node: NodeD, to_: NodeD?, ghost nodes: seq<NodeD>, ghost at: nat)
    requires Distinct(nodes) && at < |nodes| && nodes[at] == node
    modifies node`prev
    ensures node.prev == to_
    ensures forall i :: 0 <= i < |nodes| && i != at ==> nodes[i].prev == old(nodes[i].prev)
  {
    forall i | 0 <= i < |nodes| && i != at ensures nodes[i] != nodes[at] { assert Differ(nodes, i, at); }
    node.prev := to_;
  }

  // ---------------------------------------------------------------- linear

  lemma NextWith(nodes: seq<NodeD>, k: nat, x: NodeD, i: nat)
    requires k <= |nodes| && i <= |nodes| && x.next == After(nodes, k - 1)
    requires forall j :: 0 <= j < |nodes| ==> nodes[j].next == if j == k - 1 then x else After(nodes, j)
    ensures Spliced(nodes, k, x)[i].next == After(Spliced(nodes, k, x), i)
  {
  }

  lemma PrevWith(nodes: seq<NodeD>, k: nat, x: NodeD, i: nat)
    requires k <= |nodes| && i <= |nodes| && x.prev == Before(nodes, k)
    requires forall j :: 0 <= j < |nodes| ==> nodes[j].prev == if j == k then x else Before(nodes, j)
    ensures Spliced(nodes, k, x)[i].prev == Before(Spliced(nodes, k, x), i)
  {
  }

  lemma LinearWith(nodes: seq<NodeD>, k: nat, x: NodeD)
    requires Distinct(nodes) && k <= |nodes| && x !in nodes
    requires forall i :: 0 <= i < |nodes| ==> nodes[i].next == if i == k - 1 then x else After(nodes, i)
    requires forall i :: 0 <= i < |nodes| ==> nodes[i].prev == if i == k then x else Before(nodes, i)
    requires x.next == After(nodes, k - 1) && x.prev == Before(nodes, k)
    ensures Linear(if k == 0 then x else nodes[0], Spliced(nodes, k, x))
  {
    SplicedDistinct(nodes, k, x);
    var r := Spliced(nodes, k, x);
    forall i | 0 <= i < |r|
      ensures r[i].next == After(r, i) && r[i].prev == Before(r, i)
    {
      NextWith(nodes, k, x, i);
      PrevWith(nodes, k, x, i);
    }
  }

  method InsertDouble(list: NodeD?, value: int, ghost nodes: seq<NodeD>, ghost vals: seq<int>)
    returns (head: NodeD?, ghost x: NodeD)
    requires Linear(list, nodes) && Shows(nodes, vals)
    modifies nodes
    ensures fresh(x) && Linear(head, Spliced(nodes, Place(vals, value), x))
    ensures Shows(Spliced(nodes, Place(vals, value), x), Inserted(vals, value))
  {
    var new_ := new NodeD(value);
    x := new_;
    if list == null {
      LinearWith(nodes, 0, x);
      ShowsWith(nodes, vals, 0, x);
      return new_, x;
    }
    if list.value > value {
      LinkFirst(list, new_, nodes);
      ShowsWith(nodes, vals, 0, x);
      return new_, x;
    }
    var ptr, at := Walk(list, value, nodes, vals);
    LinkAfter(ptr, new_, nodes, at);
    head := list;
    ShowsWith(nodes, vals, at + 1, x);
  }

  method LinkFirst(list: NodeD, new_: NodeD, ghost nodes: seq<NodeD>)
    requires Linear(list, nodes) && new_ !in nodes && new_.prev == null
    modifies list`prev, new_`next
    ensures Linear(new_, Spliced(nodes, 0, new_))
  {
    new_.next := list;
    SetPrev(list, new_, nodes, 0);
    LinearWith(nodes, 0, new_);
  }

  /** Looking one node ahead: stops at the last node whose successor is not below. */
  method Walk(list: NodeD, value: int, ghost nodes: seq<NodeD>, ghost vals: seq<int>) returns (ptr: NodeD, ghost at: nat)
    requires Linear(list, nodes) && Shows(nodes, vals) && list.value <= value
    ensures at < |nodes| && ptr == nodes[at] && at + 1 == Place(vals, value)
  {
    ptr := list;
    at := 0;
    while ptr.next != null && ptr.next.value < value
      invariant 0 <= at < |nodes| && ptr == nodes[at]
      invariant forall j :: 1 <= j <= at ==> vals[j] < value
      decreases |nodes| - at
    {
      ptr := ptr.next;
      at := at + 1;
    }
    PlaceIs(vals, value, at + 1);
  }

  method LinkAfter(ptr: NodeD, new_: NodeD, ghost nodes: seq<NodeD>, ghost at: nat)
    requires Linear(if nodes == [] then null else nodes[0], nodes) && at < |nodes| && ptr == nodes[at] && new_ !in nodes
    modifies nodes, new_
    ensures Linear(nodes[0], Spliced(nodes, at + 1, new_))
    ensures new_.value == old(new_.value) && forall i :: 0 <= i < |nodes| ==> nodes[i].value == old(nodes[i].value)
  {
    new_.prev := ptr;
    new_.next := ptr.next;
    SetNext(ptr, new_, nodes, at);
    if new_.next != null {
      SetPrev(new_.next, new_, nodes, at + 1);
    }
    LinearWith(nodes, at + 1, new_);
  }

  /** The first `at` nodes have their links exchanged. */
  ghost predicate Turned(nodes: seq<NodeD>, at: int)
    reads nodes
  {
    && (forall i :: 0 <= i < |nodes| ==> nodes[i].next == if i < at then Before(nodes, i) else After(nodes, i))
    && (forall i :: 0 <= i < |nodes| ==> nodes[i].prev == if i < at then After(nodes, i) else Before(nodes, i))
  }

  method TurnOne(ptr: NodeD, next: NodeD?, ghost nodes: seq<NodeD>, ghost at: nat)
    requires Distinct(nodes) && Turned(nodes, at) && at < |nodes| && ptr == nodes[at] && next == After(nodes, at)
    modifies ptr`next, ptr`prev
    ensures Turned(nodes, at + 1)
  {
    SetNext(ptr, ptr.prev, nodes, at);
    SetPrev(ptr, next, nodes, at);
  }

  lemma LinearReversed(nodes: seq<NodeD>)
    requires Distinct(nodes) && nodes != [] && Turned(nodes, |nodes|)
    ensures Linear(nodes[|nodes| - 1], Reversed(nodes))
  {
    ReversedDistinct(nodes);
    var r := Reversed(nodes);
    forall i | 0 <= i < |r|
      ensures r[i].next == After(r, i) && r[i].prev == Before(r, i)
    {
      ReversedAt(nodes, i);
      if i > 0 {
        ReversedAt(nodes, i - 1);
      }
      var j := |nodes| - 1 - i;
      assert nodes[j].next == Before(nodes, j) && nodes[j].prev == After(nodes, j);
    }
  }

  method ReverseDouble(list: NodeD?, ghost nodes: seq<NodeD>, ghost vals: seq<int>) returns (head: NodeD?)
    requires Linear(list, nodes) && Shows(nodes, vals)
    modifies nodes
    ensures Linear(head, Reversed(nodes)) && Shows(Reversed(nodes), Reversed(vals))
  {
    if list == null || list.next == null {
      assert Reversed(nodes) == nodes && Reversed(vals) == vals;
      return list;
    }
    head := TurnAll(list, nodes, vals);
    LinearReversed(nodes);
    ShowsReversed(nodes, vals);
  }

  method TurnAll(list: NodeD, ghost nodes: seq<NodeD>, ghost vals: seq<int>) returns (ptr: NodeD)
    requires Distinct(nodes) && Turned(nodes, 0) && Shows(nodes, vals) && nodes != [] && list == nodes[0]
    modifies nodes
    ensures Turned(nodes, |nodes|) && Shows(nodes, vals) && ptr == nodes[|nodes| - 1]
  {
    ptr := list;
    var next := list.next;
    ghost var at := 0;
    while next != null
      invariant 0 <= at < |nodes| && ptr == nodes[at] && next == After(nodes, at)
      invariant Turned(nodes, at) && Shows(nodes, vals)
      decreases |nodes| - at
    {
      TurnOne(ptr, next, nodes, at);
      ptr := next;
      next := next.next;
      at := at + 1;
    }
    TurnOne(ptr, null, nodes, at);
  }

  // ---------------------------------------------------------------- circular

  /** The indices of the neighbours of place `k` on the circle. */
  function Left(n: nat, k: nat): int {
    if k == 0 then n - 1 else k - 1
  }

  function Right(n: nat, k: nat): int {
    if k == n then 0 else k
  }

  lemma NextWithAround(nodes: seq<NodeD>, k: nat, x: NodeD, i: nat)
    requires nodes != [] && k <= |nodes| && i <= |nodes| && x.next == Around(nodes, k - 1)
    requires forall j :: 0 <= j < |nodes| ==> nodes[j].next == if j == Left(|nodes|, k) then x else Around(nodes, j)
    ensures Spliced(nodes, k, x)[i].next == Around(Spliced(nodes, k, x), i)
  {
  }

  lemma PrevWithAround(nodes: seq<NodeD>, k: nat, x: NodeD, i: nat)
    requires nodes != [] && k <= |nodes| && i <= |nodes| && x.prev == Behind(nodes, k)
    requires forall j :: 0 <= j < |nodes| ==> nodes[j].prev == if j == Right(|nodes|, k) then x else Behind(nodes, j)
    ensures Spliced(nodes, k, x)[i].prev == Behind(Spliced(nodes, k, x), i)
  {
  }

  lemma CircularWith(nodes: seq<NodeD>, k: nat, x: NodeD)
    requires Distinct(nodes) && nodes != [] && k <= |nodes| && x !in nodes
    requires forall i :: 0 <= i < |nodes| ==> nodes[i].next == if i == Left(|nodes|, k) then x else Around(nodes, i)
    requires forall i :: 0 <= i < |nodes| ==> nodes[i].prev == if i == Right(|nodes|, k) then x else Behind(nodes, i)
    requires x.next == Around(nodes, k - 1) && x.prev == Behind(nodes, k)
    ensures Circular(if k == 0 then x else nodes[0], Spliced(nodes, k, x))
  {
    SplicedDistinct(nodes, k, x);
    var r := Spliced(nodes, k, x);
    forall i | 0 <= i < |r|
      ensures r[i].next == Around(r, i) && r[i].prev == Behind(r, i)
    {
      NextWithAround(nodes, k, x, i);
      PrevWithAround(nodes, k, x, i);
    }
  }

  method InsertDoubleCircular(list: NodeD?, value: int, ghost nodes: seq<NodeD>, ghost vals: seq<int>)
    returns (head: NodeD?, ghost x: NodeD)
    requires Circular(list, nodes) && Shows(nodes, vals)
    modifies nodes
    ensures fresh(x) && Circular(head, Spliced(nodes, Place(vals, value), x))
    ensures Shows(Spliced(nodes, Place(vals, value), x), Inserted(vals, value))
  {
    var new_ := new NodeD(value);
    x := new_;
    if list == null {
      new_.prev := new_;
      new_.next := new_;
      return new_, x;
    }
    if value < list.value {
      var prev := list.prev;
      LinkBetween(prev, list, new_, nodes, 0);
      ShowsWith(nodes, vals, 0, x);
      return new_, x;
    }
    var ptr, at := WalkAround(list, value, nodes, vals);
    var prev := ptr.prev;
    LinkBetween(prev, ptr, new_, nodes, at);
    head := list;
    ShowsWith(nodes, vals, at, x);
  }

  method WalkAround(list: NodeD, value: int, ghost nodes: seq<NodeD>, ghost vals: seq<int>) returns (ptr: NodeD, ghost at: nat)
    requires Circular(list, nodes) && Shows(nodes, vals) && list.value <= value
    ensures 1 <= at <= |nodes| && ptr == Around(nodes, at - 1) && at == Place(vals, value)
  {
    ptr := list.next;
    at := 1;
    while ptr != list && ptr.value < value
      invariant 1 <= at <= |nodes| && ptr == Around(nodes, at - 1)
      invariant forall j :: 1 <= j < at ==> vals[j] < value
      decreases |nodes| - at
    {
      ptr := ptr.next;
      at := at + 1;
    }
    assert Differ(nodes, 0, at);
    PlaceIs(vals, value, at);
  }

  method LinkBetween(prev: NodeD, ptr: NodeD, new_: NodeD, ghost nodes: seq<NodeD>, ghost k: nat)
    requires nodes != [] && Circular(nodes[0], nodes) && k <= |nodes| && new_ !in nodes
    requires ptr == Around(nodes, k - 1) && prev == Behind(nodes, k)
    modifies nodes, new_
    ensures Circular(if k == 0 then new_ else nodes[0], Spliced(nodes, k, new_))
    ensures new_.value == old(new_.value) && forall i :: 0 <= i < |nodes| ==> nodes[i].value == old(nodes[i].value)
  {
    LinkNext(prev, new_, nodes, k);
    LinkPrev(ptr, new_, nodes, k);
    SetEnds(new_, ptr, prev, nodes);
    CircularWith(nodes, k, new_);
  }

  method LinkNext(prev: NodeD, new_: NodeD, ghost nodes: seq<NodeD>, ghost k: nat)
    requires nodes != [] && Distinct(nodes) && k <= |nodes| && prev == Behind(nodes, k)
    requires forall i :: 0 <= i < |nodes| ==> nodes[i].next == Around(nodes, i)
    modifies prev`next
    ensures forall i :: 0 <= i < |nodes| ==> nodes[i].next == if i == Left(|nodes|, k) then new_ else Around(nodes, i)
  {
    SetNext(prev, new_, nodes, Left(|nodes|, k));
  }

  method LinkPrev(ptr: NodeD, new_: NodeD, ghost nodes: seq<NodeD>, ghost k: nat)
    requires nodes != [] && Distinct(nodes) && k <= |nodes| && ptr == Around(nodes, k - 1)
    requires forall i :: 0 <= i < |nodes| ==> nodes[i].prev == Behind(nodes, i)
    modifies ptr`prev
    ensures forall i :: 0 <= i < |nodes| ==> nodes[i].prev == if i == Right(|nodes|, k) then new_ else Behind(nodes, i)
  {
    SetPrev(ptr, new_, nodes, Right(|nodes|, k));
  }

  /** The new node's own links; it belongs to no list yet. */
  method SetEnds(new_: NodeD, ptr: NodeD, prev: NodeD, ghost nodes: seq<NodeD>)
    requires new_ !in nodes
    modifies new_`next, new_`prev
    ensures new_.next == ptr && new_.prev == prev
    ensures forall i :: 0 <= i < |nodes| ==> nodes[i].next == old(nodes[i].next) && nodes[i].prev == old(nodes[i].prev)
  {
    new_.next := ptr;
    new_.prev := prev;
  }

  ghost predicate TurnedAround(nodes: seq<NodeD>, at: int)
    reads nodes
  {
    && (forall i :: 0 <= i < |nodes| ==> nodes[i].next == if i < at then Behind(nodes, i) else Around(nodes, i))
    && (forall i :: 0 <= i < |nodes| ==> nodes[i].prev == if i < at then Around(nodes, i) else Behind(nodes, i))
  }

  method TurnOneAround(ptr: NodeD, next: NodeD?, ghost nodes: seq<NodeD>, ghost at: nat)
    requires Distinct(nodes) && TurnedAround(nodes, at) && at < |nodes| && ptr == nodes[at] && next == Around(nodes, at)
    modifies ptr`next, ptr`prev
    ensures TurnedAround(nodes, at + 1)
  {
    SetNext(ptr, ptr.prev, nodes, at);
    SetPrev(ptr, next, nodes, at);
  }

  lemma CircularReversed(nodes: seq<NodeD>)
    requires Distinct(nodes) && nodes != [] && TurnedAround(nodes, |nodes|)
    ensures Circular(nodes[|nodes| - 1], Reversed(nodes))
  {
    ReversedDistinct(nodes);
    var r := Reversed(nodes);
    ReversedAt(nodes, 0);
    ReversedAt(nodes, |nodes| - 1);
    forall i | 0 <= i < |r|
      ensures r[i].next == Around(r, i) && r[i].prev == Behind(r, i)
    {
      ReversedAt(nodes, i);
      if i > 0 {
        ReversedAt(nodes, i - 1);
      }
      var j := |nodes| - 1 - i;
      assert nodes[j].next == Behind(nodes, j) && nodes[j].prev == Around(nodes, j);
    }
  }

  method ReverseDoubleCircular(list: NodeD?, ghost nodes: seq<NodeD>, ghost vals: seq<int>) returns (head: NodeD?)
    requires Circular(list, nodes) && Shows(nodes, vals)
    modifies nodes
    ensures Circular(head, Reversed(nodes)) && Shows(Reversed(nodes), Reversed(vals))
  {
    if list == null || list.next == list {
      assert Differ(nodes, 0, 1);
      assert Reversed(nodes) == nodes && Reversed(vals) == vals;
      return list;
    }
    var ptr := list;
    var next := ptr.next;
    ghost var at := 0;
    while next != list
      invariant 0 <= at < |nodes| && ptr == nodes[at] && next == Around(nodes, at)
      invariant TurnedAround(nodes, at) && Shows(nodes, vals)
      decreases |nodes| - at
    {
      TurnOneAround(ptr, next, nodes, at);
      ptr := next;
      next := next.next;
      at := at + 1;
    }
    assert Differ(nodes, 0, at + 1);
    TurnOneAround(ptr, next, nodes, at);
    head := ptr;
    CircularReversed(nodes);
    ShowsReversed(nodes, vals);
  }
}
