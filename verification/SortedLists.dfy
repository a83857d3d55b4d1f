/** What the list routines do to the sequence of values: sorted insertion and reversal. */
module SortedLists {

  predicate InOrder(s: seq<int>, i: int, j: int) {
    0 <= i < j < |s| ==> s[i] <= s[j]
  }

  ghost predicate Sorted(s: seq<int>) {
    forall i, j :: InOrder(s, i, j)
  }

  /** The first index from `i` on whose value is not below `v`. */
  function NotBelow(s: seq<int>, v: int, i: nat): (k: nat)
    requires i <= |s|
    ensures i <= k <= |s| && (k < |s| ==> s[k] >= v)
    ensures forall j :: i <= j < k ==> s[j] < v
    decreases |s| - i
  {
    if i == |s| || s[i] >= v then i else NotBelow(s, v, i + 1)
  }

  /** All four insertions agree on the place: the front if the first value is larger, else after the first
      value and the smaller ones that follow it. */
  function Place(s: seq<int>, v: int): (k: nat)
    ensures k <= |s|
    ensures k == 0 <==> s == [] || s[0] > v
    ensures 0 < k < |s| ==> s[k] >= v
    ensures forall j :: 0 < j < k ==> s[j] < v
  {
    if s == [] || s[0] > v then 0 else NotBelow(s, v, 1)
  }

  function Inserted(s: seq<int>, v: int): seq<int> {
    s[..Place(s, v)] + [v] + s[Place(s, v)..]
  }

  lemma PlaceSplits(s: seq<int>, v: int, i: nat)
    requires Sorted(s) && i < |s|
    ensures i < Place(s, v) ==> s[i] <= v
    ensures i >= Place(s, v) ==> v <= s[i]
  {
    var k := Place(s, v);
    if k <= i {
      assert InOrder(s, k, i);
    }
  }

  lemma InsertAddsOne(s: seq<int>, v: int, k: nat)
    requires k <= |s|
    ensures multiset(s[..k] + [v] + s[k..]) == multiset(s) + multiset{v}
  {
    assert s == s[..k] + s[k..];
  }

  /** Insertion keeps a sorted list sorted and adds exactly the one value. */
  lemma InsertKeepsSorted(s: seq<int>, v: int)
    requires Sorted(s)
    ensures Sorted(Inserted(s, v)) && multiset(Inserted(s, v)) == multiset(s) + multiset{v}
  {
    var k := Place(s, v);
    var r := Inserted(s, v);
    InsertAddsOne(s, v, k);
    forall i, j
      ensures InOrder(r, i, j)
    {
      if 0 <= i < j < |r| {
        var a, b := if i < k then i else i - 1, if j < k then j else j - 1;
        if i == k {
          PlaceSplits(s, v, b);
        } else if j == k {
          PlaceSplits(s, v, a);
        } else {
          assert InOrder(s, a, b);
        }
      }
    }
  }

  /** Inserting any values one after the other into the empty list sorts them. */
  function InsertAll(s: seq<int>, vs: seq<int>): seq<int>
    decreases |vs|
  {
    if vs == [] then s else InsertAll(Inserted(s, vs[0]), vs[1..])
  }

  lemma {:induction false} InsertAllSorts(s: seq<int>, vs: seq<int>)
    requires Sorted(s)
    ensures Sorted(InsertAll(s, vs)) && multiset(InsertAll(s, vs)) == multiset(s) + multiset(vs)
    decreases |vs|
  {
    if vs != [] {
      InsertKeepsSorted(s, vs[0]);
      InsertAllSorts(Inserted(s, vs[0]), vs[1..]);
      assert vs == [vs[0]] + vs[1..];
    }
  }

  function Reversed<T>(s: seq<T>): seq<T> {
    seq(|s|, i requires 0 <= i < |s| => s[|s| - 1 - i])
  }

  lemma ReversedTwice<T>(s: seq<T>)
    ensures Reversed(Reversed(s)) == s
  {
  }

  lemma PlaceIs(vals: seq<int>, v: int, k: nat)
    requires 1 <= k <= |vals| && vals[0] <= v && (k < |vals| ==> vals[k] >= v)
    requires forall j :: 1 <= j < k ==> vals[j] < v
    ensures Place(vals, v) == k
  {
  }

  // ---------------------------------------------------------------- sequences of nodes

  ghost predicate Differ<T>(s: seq<T>, i: int, j: int) {
    0 <= i < |s| && 0 <= j < |s| && i != j ==> s[i] != s[j]
  }

  ghost predicate Distinct<T>(s: seq<T>) {
    forall i, j :: Differ(s, i, j)
  }

  ghost function Spliced<T>(s: seq<T>, k: nat, x: T): (r: seq<T>)
    requires k <= |s|
    ensures |r| == |s| + 1
    ensures forall i :: 0 <= i < |r| ==> r[i] == if i < k then s[i] else if i == k then x else s[i - 1]
  {
    s[..k] + [x] + s[k..]
  }

  lemma SplicedDistinct<T>(s: seq<T>, k: nat, x: T)
    requires Distinct(s) && k <= |s| && x !in s
    ensures Distinct(Spliced(s, k, x))
  {
    var r := Spliced(s, k, x);
    forall i, j
      ensures Differ(r, i, j)
    {
      assert Differ(s, if i < k then i else i - 1, if j < k then j else j - 1);
    }
  }

  lemma ReversedDistinct<T>(s: seq<T>)
    requires Distinct(s)
    ensures Distinct(Reversed(s))
  {
    forall i, j
      ensures Differ(Reversed(s), i, j)
    {
      assert Differ(s, |s| - 1 - i, |s| - 1 - j);
    }
  }

  lemma ReversedAt<T>(s: seq<T>, i: nat)
    requires i < |s|
    ensures Reversed(s)[i] == s[|s| - 1 - i]
    ensures i + 1 < |s| ==> Reversed(s)[i + 1] == s[|s| - 2 - i]
  {
  }
}
