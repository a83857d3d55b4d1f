/** Singly linked lists on the heap, linear and circular: sorted insertion and in-place reversal.  Ghost sequences
    name the nodes in list order and their values. */
module SinglyLinked {
  import opened SortedLists

  class NodeS {
    var next: NodeS?
    var value: int

    constructor (value: int)
      ensures this.value == value && next == null
    {
      this.value, this.next := value, null;
    }
  }

  // ---------------------------------------------------------------- singly linked

  ghost predicate Shows(nodes: seq<NodeS>, vals: seq<int>)
    reads nodes
  {
    |vals| == |nodes| && forall i :: 0 <= i < |nodes| ==> nodes[i].value == vals[i]
  }

  function After(nodes: seq<NodeS>, i: int): NodeS? {
    if 0 <= i + 1 < |nodes| then nodes[i + 1] else null
  }

  ghost predicate Linear(list: NodeS?, nodes: seq<NodeS>)
    reads nodes
  {
    && Distinct(nodes)
    && list == After(nodes, -1)
    && forall i :: 0 <= i < |nodes| ==> nodes[i].next == After(nodes, i)
  }

  /** `node->next = to`, seen from a list the node belongs to: every other link and all values stay. */
  method SetNext(node: NodeS, to_: NodeS?, ghost nodes: seq<NodeS>, ghost at: nat)
    requires Distinct(nodes) && at < |nodes| && nodes[at] == node
    modifies node`next
    ensures node.next == to_
    ensures forall i :: 0 <= i < |nodes| && i != at ==> nodes[i].next == old(nodes[i].next)
  {
    forall i | 0 <= i < |nodes| && i != at ensures nodes[i] != nodes[at] { assert Differ(nodes, i, at); }
    node.next := to_;
  }

  /** Two links changed, and the list has the new node in place. */
  lemma LinearWith(nodes: seq<NodeS>, k: nat, x: NodeS)
    requires Distinct(nodes) && k <= |nodes| && x !in nodes
    requires forall i :: 0 <= i < |nodes| ==> nodes[i].next == if i == k - 1 then x else After(nodes, i)
    requires x.next == After(nodes, k - 1)
    ensures Linear(if k == 0 then x else nodes[0], Spliced(nodes, k, x))
  {
    SplicedDistinct(nodes, k, x);
  }

  lemma ShowsWith(nodes: seq<NodeS>, vals: seq<int>, k: nat, x: NodeS)
    requires Shows(nodes, vals) && k <= |nodes|
    ensures Shows(Spliced(nodes, k, x), vals[..k] + [x.value] + vals[k..])
  {
  }

  method InsertSingle(list: NodeS?, value: int, ghost nodes: seq<NodeS>, ghost vals: seq<int>)
    returns (head: NodeS?, ghost x: NodeS)
    requires Linear(list, nodes) && Shows(nodes, vals)
    modifies nodes
    ensures fresh(x) && Linear(head, Spliced(nodes, Place(vals, value), x))
    ensures Shows(Spliced(nodes, Place(vals, value), x), Inserted(vals, value))
  {
    var new_ := new NodeS(value);
    x := new_;
    if list == null {
      LinearWith(nodes, 0, x);
      ShowsWith(nodes, vals, 0, x);
      return new_, x;
    }
    if list.value > value {
      new_.next := list;
      LinearWith(nodes, 0, x);
      ShowsWith(nodes, vals, 0, x);
      return new_, x;
    }
    var prev, ptr, at := Walk(list, value, nodes, vals);
    SetNext(prev, new_, nodes, at);
    new_.next := ptr;
    head := list;
    LinearWith(nodes, at + 1, x);
    ShowsWith(nodes, vals, at + 1, x);
  }

  /** The search loop: `ptr` is the first node from the second on whose value is not below, `prev` the one before. */
  method Walk(list: NodeS, value: int, ghost nodes: seq<NodeS>, ghost vals: seq<int>)
    returns (prev: NodeS, ptr: NodeS?, ghost at: nat)
    requires Linear(list, nodes) && Shows(nodes, vals) && list.value <= value
    ensures at < |nodes| && prev == nodes[at] && ptr == After(nodes, at) && at + 1 == Place(vals, value)
  {
    prev := list;
    ptr := list.next;
    at := 0;
    while ptr != null && ptr.value < value
      invariant 0 <= at < |nodes| && prev == nodes[at] && ptr == After(nodes, at)
      invariant forall j :: 1 <= j <= at ==> vals[j] < value
      decreases |nodes| - at
    {
      prev := ptr;
      ptr := ptr.next;
      at := at + 1;
    }
    PlaceIs(vals, value, at + 1);
  }

  function Before(nodes: seq<NodeS>, i: int): NodeS? {
    if 0 < i <= |nodes| then nodes[i - 1] else null
  }

  /** The first `at` nodes point backwards, the others still forwards. */
  ghost predicate Turned(nodes: seq<NodeS>, at: int)
    reads nodes
  {
    forall i :: 0 <= i < |nodes| ==> nodes[i].next == if i < at then Before(nodes, i) else After(nodes, i)
  }

  lemma LinearReversed(nodes: seq<NodeS>)
    requires Distinct(nodes) && nodes != [] && Turned(nodes, |nodes|)
    ensures Linear(nodes[|nodes| - 1], Reversed(nodes))
  {
    ReversedDistinct(nodes);
    var r := Reversed(nodes);
    forall i | 0 <= i < |r|
      ensures r[i].next == After(r, i)
    {
      ReversedAt(nodes, i);
      assert nodes[|nodes| - 1 - i].next == Before(nodes, |nodes| - 1 - i);
    }
  }

  method TurnOne(current: NodeS, prev: NodeS?, ghost nodes: seq<NodeS>, ghost at: nat)
    requires Distinct(nodes) && Turned(nodes, at) && at < |nodes| && current == nodes[at] && prev == Before(nodes, at)
    modifies current`next
    ensures Turned(nodes, at + 1)
  {
    SetNext(current, prev, nodes, at);
  }

  lemma ShowsReversed(nodes: seq<NodeS>, vals: seq<int>)
    requires Shows(nodes, vals)
    ensures Shows(Reversed(nodes), Reversed(vals))
  {
  }

  method ReverseSingle(list: NodeS?, ghost nodes: seq<NodeS>, ghost vals: seq<int>) returns (head: NodeS?)
    requires Linear(list, nodes) && Shows(nodes, vals)
    modifies nodes
    ensures Linear(head, Reversed(nodes)) && Shows(Reversed(nodes), Reversed(vals))
  {
    if list == null || list.next == null {
      assert Reversed(nodes) == nodes && Reversed(vals) == vals;
      return list;
    }
    var prev: NodeS? := null;
    var current := list;
    var next := list.next;
    ghost var at := 0;
    while next != null
      invariant 0 <= at < |nodes| && current == nodes[at] && next == After(nodes, at) && prev == Before(nodes, at)
      invariant Turned(nodes, at) && Shows(nodes, vals)
      decreases |nodes| - at
    {
      TurnOne(current, prev, nodes, at);
      prev := current;
      current := next;
      next := next.next;
      at := at + 1;
    }
    TurnOne(current, prev, nodes, at);
    head := current;
    LinearReversed(nodes);
    ShowsReversed(nodes, vals);
  }

  // ---------------------------------------------------------------- circular, singly linked

  function Around(nodes: seq<NodeS>, i: int): NodeS? {
    if 0 <= i + 1 < |nodes| then nodes[i + 1] else if nodes == [] then null else nodes[0]
  }

  ghost predicate Circular(list: NodeS?, nodes: seq<NodeS>)
    reads nodes
  {
    && Distinct(nodes)
    && list == After(nodes, -1)
    && forall i :: 0 <= i < |nodes| ==> nodes[i].next == Around(nodes, i)
  }

  lemma CircularWith(nodes: seq<NodeS>, k: nat, x: NodeS)
    requires Distinct(nodes) && 1 <= k <= |nodes| && x !in nodes
    requires forall i :: 0 <= i < |nodes| ==> nodes[i].next == if i == k - 1 then x else Around(nodes, i)
    requires x.next == Around(nodes, k - 1)
    ensures Circular(nodes[0], Spliced(nodes, k, x))
  {
    SplicedDistinct(nodes, k, x);
  }

  /** To insert at the front without looking for the last node, the new value goes into the old first node and
      the old first value into the new node, which becomes the second. */
  method InsertSingleCircular(list: NodeS?, value: int, ghost nodes: seq<NodeS>, ghost vals: seq<int>)
    returns (head: NodeS?, ghost x: NodeS, ghost k: nat)
    requires Circular(list, nodes) && Shows(nodes, vals)
    modifies nodes
    ensures fresh(x) && k == (if nodes != [] && Place(vals, value) == 0 then 1 else Place(vals, value))
    ensures Circular(head, Spliced(nodes, k, x)) && Shows(Spliced(nodes, k, x), Inserted(vals, value))
  {
    var new_ := new NodeS(value);
    x := new_;
    if list == null {
      new_.next := new_;
      k := 0;
      return new_, x, k;
    }
    if list.value > value {
      k := 1;
      CopyHead(list, new_, value, nodes, vals);
      return list, x, k;
    }
    var prev, ptr, at := WalkAround(list, value, nodes, vals);
    k := at + 1;
    SetNext(prev, new_, nodes, at);
    new_.next := ptr;
    head := list;
    CircularWith(nodes, k, x);
    ShowsWith(nodes, vals, k, x);
  }

  method CopyHead(list: NodeS, new_: NodeS, value: int, ghost nodes: seq<NodeS>, ghost vals: seq<int>)
    requires Circular(list, nodes) && Shows(nodes, vals) && new_ !in nodes && list.value > value
    modifies list, new_
    ensures Circular(list, Spliced(nodes, 1, new_)) && Shows(Spliced(nodes, 1, new_), Inserted(vals, value))
  {
    forall i | 0 < i < |nodes| ensures nodes[i] != nodes[0] { assert Differ(nodes, i, 0); }
    new_.value, new_.next := list.value, list.next;
    list.value := value;
    SetNext(list, new_, nodes, 0);
    CircularWith(nodes, 1, new_);
  }

  method WalkAround(list: NodeS, value: int, ghost nodes: seq<NodeS>, ghost vals: seq<int>)
    returns (prev: NodeS, ptr: NodeS, ghost at: nat)
    requires Circular(list, nodes) && Shows(nodes, vals) && list.value <= value
    ensures at < |nodes| && prev == nodes[at] && ptr == Around(nodes, at) && at + 1 == Place(vals, value)
  {
    prev := list;
    ptr := list.next;
    at := 0;
    while ptr != list && ptr.value < value
      invariant 0 <= at < |nodes| && prev == nodes[at] && ptr == Around(nodes, at)
      invariant forall j :: 1 <= j <= at ==> vals[j] < value
      decreases |nodes| - at
    {
      prev := ptr;
      ptr := ptr.next;
      at := at + 1;
    }
    assert Differ(nodes, 0, at + 1);
    PlaceIs(vals, value, at + 1);
  }

  /** All but the first of the first `at` nodes point backwards. */
  ghost predicate TurnedAround(nodes: seq<NodeS>, at: int)
    reads nodes
  {
    forall i :: 0 <= i < |nodes| ==> nodes[i].next == if 0 < i < at then Before(nodes, i) else Around(nodes, i)
  }

  lemma CircularReversed(nodes: seq<NodeS>)
    requires Distinct(nodes) && nodes != [] && nodes[0].next == nodes[|nodes| - 1]
    requires forall i :: 0 < i < |nodes| ==> nodes[i].next == nodes[i - 1]
    ensures Circular(nodes[|nodes| - 1], Reversed(nodes))
  {
    ReversedDistinct(nodes);
    var r := Reversed(nodes);
    ReversedAt(nodes, 0);
    forall i | 0 <= i < |r|
      ensures r[i].next == Around(r, i)
    {
      ReversedAt(nodes, i);
      var j := |nodes| - 1 - i;
      assert 0 < j ==> nodes[j].next == nodes[j - 1];
    }
  }

  method TurnOneAround(current: NodeS, prev: NodeS, ghost nodes: seq<NodeS>, ghost at: nat)
    requires Distinct(nodes) && TurnedAround(nodes, at) && 0 < at < |nodes| && current == nodes[at] && prev == nodes[at - 1]
    modifies current`next
    ensures TurnedAround(nodes, at + 1)
  {
    SetNext(current, prev, nodes, at);
  }

  method ReverseSingleCircular(list: NodeS?, ghost nodes: seq<NodeS>, ghost vals: seq<int>) returns (head: NodeS?)
    requires Circular(list, nodes) && Shows(nodes, vals)
    modifies nodes
    ensures Circular(head, Reversed(nodes)) && Shows(Reversed(nodes), Reversed(vals))
  {
    if list == null || list.next == list {
      assert Differ(nodes, 0, 1);
      assert Reversed(nodes) == nodes && Reversed(vals) == vals;
      return list;
    }
    head := TurnAllAround(list, nodes, vals);
    CircularReversed(nodes);
    ShowsReversed(nodes, vals);
  }

  method TurnAllAround(list: NodeS, ghost nodes: seq<NodeS>, ghost vals: seq<int>) returns (prev: NodeS)
    requires Distinct(nodes) && TurnedAround(nodes, 0) && Shows(nodes, vals) && |nodes| > 1 && list == nodes[0]
    modifies nodes
    ensures nodes[0].next == nodes[|nodes| - 1] && Shows(nodes, vals) && prev == nodes[|nodes| - 1]
    ensures forall i :: 0 < i < |nodes| ==> nodes[i].next == nodes[i - 1]
  {
    prev := TurnRest(list, nodes, vals);
    SetNext(list, prev, nodes, 0);
  }

  /** All links but the head's, which the walk comes back to. */
  method TurnRest(list: NodeS, ghost nodes: seq<NodeS>, ghost vals: seq<int>) returns (prev: NodeS)
    requires Distinct(nodes) && TurnedAround(nodes, 0) && Shows(nodes, vals) && |nodes| > 1 && list == nodes[0]
    modifies nodes
    ensures TurnedAround(nodes, |nodes|) && Shows(nodes, vals) && prev == nodes[|nodes| - 1]
  {
    prev := list;
    var current := list.next;
    var next := current.next;
    ghost var at := 1;
    while current != list
      invariant 1 <= at <= |nodes| && |nodes| > 1 && prev == nodes[at - 1]
      invariant current == Around(nodes, at - 1) && next == if at < |nodes| then Around(nodes, at) else nodes[1]
      invariant TurnedAround(nodes, at) && Shows(nodes, vals)
      decreases |nodes| - at
    {
      assert at < |nodes|;
      TurnOneAround(current, prev, nodes, at);
      prev := current;
      current := next;
      next := next.next;
      at := at + 1;
    }
    assert Differ(nodes, 0, at);
  }
}
