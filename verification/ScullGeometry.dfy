/** Where a transfer goes under a geometry other than the device's own. */
module ScullGeometry {
  import opened Basics
  import opened Geometry

  datatype Shape = Shape(quantum: nat, qset: nat)
  {
    predicate Valid() {
      quantum > 0 && qset > 0
    }
  }

  datatype Place = Place(item: nat, index: nat, offset: nat)

  /** Item, index and offset as both functions compute them. */
  function PlaceOf(g: Shape, pos: nat): Place
    requires g.Valid()
  {
    SplitPosition(pos, g.quantum, g.qset);
    var rest := pos % (g.quantum * g.qset);
    Place(pos / (g.quantum * g.qset), rest / g.quantum, rest % g.quantum)
  }

  /** A transfer goes up to the end of the quantum. */
  function Amount(g: Shape, pos: nat, count: nat): nat
    requires g.Valid()
  {
    Min(count, g.quantum - PlaceOf(g, pos).offset)
  }

  /** Item, index and offset are those of the flat position; the amount goes up to the end of its quantum. */
  lemma PlaceIs(g: Shape, pos: nat, count: nat)
    requires g.Valid()
    ensures var p := PlaceOf(g, pos);
      p.item == pos / g.quantum / g.qset && p.index == pos / g.quantum % g.qset && p.offset == pos % g.quantum
    ensures Amount(g, pos, count) == if count < g.quantum - pos % g.quantum then count else g.quantum - pos % g.quantum
  {
    SplitPosition(pos, g.quantum, g.qset);
  }

  lemma PlaceBounds(g: Shape, pos: nat)
    requires g.Valid()
    ensures PlaceOf(g, pos).index < g.qset && PlaceOf(g, pos).offset < g.quantum
  {
    SplitPosition(pos, g.quantum, g.qset);
  }

  /** A transfer under the copied geometry `g` stays inside arrays and quanta that have the geometry `dev`. */
  predicate Inside(g: Shape, dev: Shape, pos: nat, count: nat)
    requires g.Valid()
  {
    PlaceOf(g, pos).index < dev.qset && PlaceOf(g, pos).offset + Amount(g, pos, count) <= dev.quantum
  }

  /** It goes to the place and the amount that the device's own geometry gives. */
  predicate Lands(g: Shape, dev: Shape, pos: nat, count: nat)
    requires g.Valid() && dev.Valid()
  {
    PlaceOf(g, pos) == PlaceOf(dev, pos) && Amount(g, pos, count) == Amount(dev, pos, count)
  }

  ghost predicate AlwaysInside(g: Shape, dev: Shape)
    requires g.Valid()
  {
    forall pos: nat, count: nat :: Inside(g, dev, pos, count)
  }

  ghost predicate AlwaysLands(g: Shape, dev: Shape)
    requires g.Valid() && dev.Valid()
  {
    forall pos: nat, count: nat :: Lands(g, dev, pos, count)
  }

  lemma PlaceAtStart(g: Shape)
    requires g.Valid()
    ensures PlaceOf(g, 0) == Place(0, 0, 0)
  {
    DivModUnique(0, g.quantum * g.qset, 0, 0);
  }

  /** The position where the k-th quantum of the first item begins, or, past its end, the second item. */
  lemma PlaceAtQuantum(g: Shape, k: nat)
    requires g.Valid() && k <= g.qset
    ensures 0 <= k * g.quantum && PlaceOf(g, k * g.quantum) == if k < g.qset then Place(0, k, 0) else Place(1, 0, 0)
  {
    SplitPosition(k * g.quantum, g.quantum, g.qset);
    DivModUnique(k * g.quantum, g.quantum, k, 0);
    if k < g.qset {
      DivModUnique(k, g.qset, 0, k);
    } else {
      DivModUnique(k, g.qset, 1, 0);
    }
  }

  /** Transfers stay inside blocks of one geometry, whatever the position and count, exactly when the copied
      geometry is not larger in either direction. */
  lemma InsideIff(g: Shape, dev: Shape)
    requires g.Valid() && dev.Valid()
    ensures AlwaysInside(g, dev) <==> g.quantum <= dev.quantum && g.qset <= dev.qset
  {
    if AlwaysInside(g, dev) {
      PlaceAtStart(g);
      assert Inside(g, dev, 0, g.quantum);
      PlaceAtQuantum(g, g.qset - 1);
      assert Inside(g, dev, (g.qset - 1) * g.quantum, 0);
    }
    if g.quantum <= dev.quantum && g.qset <= dev.qset {
      forall pos: nat, count: nat ensures Inside(g, dev, pos, count) { PlaceBounds(g, pos); }
    }
  }

  /** They go where they should exactly when it is the device's geometry. */
  lemma LandsIff(g: Shape, dev: Shape)
    requires g.Valid() && dev.Valid()
    ensures AlwaysLands(g, dev) <==> g == dev
  {
    if AlwaysLands(g, dev) {
      PlaceAtStart(g);
      PlaceAtStart(dev);
      assert Lands(g, dev, 0, g.quantum + dev.quantum);
      assert g.quantum == dev.quantum;
      var k := Min(g.qset, dev.qset);
      PlaceAtQuantum(g, k);
      PlaceAtQuantum(dev, k);
      assert Lands(g, dev, k * g.quantum, 0);
    }
  }
}
