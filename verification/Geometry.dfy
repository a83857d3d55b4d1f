/** How scull and scullp find a byte: item, index in the quantum set, offset in the quantum. */
module Geometry {

  lemma Distributes(a: int, b: int, d: int)
    ensures (a - b) * d == a * d - b * d && (a + b) * d == a * d + b * d
  {
  }

  lemma AtLeastOne(k: int, d: int)
    requires k >= 1 && d >= 0
    ensures k * d >= d
  {
  }

  lemma Fundamental(x: nat, d: nat)
    requires d > 0
    ensures x == x / d * d + x % d && 0 <= x % d < d
  {
  }

  lemma DivModUnique(x: nat, d: nat, a: nat, b: nat)
    requires x == a * d + b && b < d
    ensures x / d == a && x % d == b
  {
    Fundamental(x, d);
    QuotientUnique(d, a, b, x / d, x % d);
  }

  lemma QuotientUnique(d: nat, a: nat, b: nat, q: nat, r: nat)
    requires a * d + b == q * d + r && b < d && r < d
    ensures q == a && r == b
  {
    Distributes(q, a, d);
    Distributes(a, q, d);
    if q > a {
      AtLeastOne(q - a, d);
    } else if q < a {
      AtLeastOne(a - q, d);
    }
  }

  lemma Regroup(item: nat, s: nat, quantum: nat, qset: nat)
    ensures (item * qset + s) * quantum == item * (quantum * qset) + s * quantum
  {
    Distributes(item * qset, s, quantum);
    assert item * qset * quantum == item * (quantum * qset);
  }

  /** Dividing by the item size and then by the quantum is dividing by the quantum and then by the set. */
  lemma SplitPosition(pos: nat, quantum: nat, qset: nat)
    requires quantum > 0 && qset > 0
    ensures quantum * qset > 0
    ensures pos / (quantum * qset) == pos / quantum / qset
    ensures pos % (quantum * qset) / quantum == pos / quantum % qset
    ensures pos % (quantum * qset) % quantum == pos % quantum
  {
    var n, q := pos / quantum, pos % quantum;
    var item, s := n / qset, n % qset;
    Fundamental(pos, quantum);
    Fundamental(n, qset);
    Regroup(item, s, quantum, qset);
    SmallRest(s, q, quantum, qset);
    var rest := s * quantum + q;
    DivModUnique(pos, quantum * qset, item, rest);
    DivModUnique(rest, quantum, s, q);
  }

  lemma SmallRest(s: nat, q: nat, quantum: nat, qset: nat)
    requires s < qset && q < quantum
    ensures s * quantum + q < quantum * qset
  {
    AtLeastOne(qset - s, quantum);
    Distributes(qset, s, quantum);
  }

  /** Positions in one quantum differ by their offsets alone. */
  lemma SameQuantum(pos: nat, k: nat, quantum: nat)
    requires quantum > 0 && pos % quantum + k < quantum
    ensures (pos + k) / quantum == pos / quantum && (pos + k) % quantum == pos % quantum + k
  {
    Fundamental(pos, quantum);
    DivModUnique(pos + k, quantum, pos / quantum, pos % quantum + k);
  }

  /** Two positions with the same quantum and offset are one. */
  lemma QuantumAndOffset(a: nat, b: nat, quantum: nat)
    requires quantum > 0 && a / quantum == b / quantum && a % quantum == b % quantum
    ensures a == b
  {
    Fundamental(a, quantum);
    Fundamental(b, quantum);
  }

  lemma SetAndIndex(a: nat, b: nat, qset: nat)
    requires qset > 0 && a / qset == b / qset && a % qset == b % qset
    ensures a == b
  {
    Fundamental(a, qset);
    Fundamental(b, qset);
  }

  /** A span that stays inside one quantum, seen as item, index and offset. */
  lemma SpanInQuantum(pos: nat, n: nat, x: nat, quantum: nat, qset: nat)
    requires quantum > 0 && qset > 0 && pos % quantum + n <= quantum
    ensures pos <= x < pos + n <==>
      && x / quantum / qset == pos / quantum / qset && x / quantum % qset == pos / quantum % qset
      && pos % quantum <= x % quantum < pos % quantum + n
    ensures pos <= x < pos + n ==> x % quantum - pos % quantum == x - pos
  {
    if pos <= x < pos + n {
      SameQuantum(pos, x - pos, quantum);
    }
    var k := x % quantum - pos % quantum;
    if x / quantum / qset == pos / quantum / qset && x / quantum % qset == pos / quantum % qset && 0 <= k < n {
      SetAndIndex(x / quantum, pos / quantum, qset);
      SameQuantum(pos, k, quantum);
      QuantumAndOffset(x, pos + k, quantum);
    }
  }
}
